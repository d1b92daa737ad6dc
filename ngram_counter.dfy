/**
 * The n-gram counters of the training phase. Each builds a dictionary from
 * n-gram to its raw number of occurrences (not a relative frequency); the
 * dictionary keeps its keys in insertion order, so a key stands where its
 * n-gram first occurred.
 */
module NgramCounter {
  import opened Basics

  /**
   * A dictionary from n-gram to count: `keys` is the insertion order,
   * `counts` the lookup.
   */
  datatype Table = Table(keys: seq<string>, counts: map<string, nat>) {

    ghost predicate Valid() {
      && Distinct(keys)
      && (forall k :: k in counts <==> k in keys)
    }

    /**
     * The entries in insertion order, as the dictionary's `items()` yields
     * them. A key missing from `counts`, which a valid table never has,
     * would read as 0.
     */
    function Items(): seq<(string, nat)> {
      seq(|keys|, i requires 0 <= i < |keys| => (keys[i], if keys[i] in counts then counts[keys[i]] else 0))
    }

    /** The sum of all counts. */
    function Total(): nat
      requires Valid()
    {
      SumOver(keys, counts)
    }
  }

  const Empty: Table := Table([], map[])

  function SumOver(keys: seq<string>, counts: map<string, nat>): nat
    requires forall i :: 0 <= i < |keys| ==> keys[i] in counts
  {
    if keys == [] then 0 else counts[keys[0]] + SumOver(keys[1..], counts)
  }

  /**
   * One occurrence of `ngram` recorded, as `d[ngram] = d.get(ngram, 0) + 1`
   * does: an existing key keeps its place, a new one goes last with count 1.
   */
  function Bump(w: Table, ngram: string): Table {
    if ngram in w.counts then Table(w.keys, w.counts[ngram := w.counts[ngram] + 1])
    else Table(w.keys + [ngram], w.counts[ngram := 1])
  }

  /** The dictionary built by recording the n-grams of `s` one after another. */
  function Tally(s: seq<string>): Table {
    if s == [] then Empty else Bump(Tally(s[..|s| - 1]), s[|s| - 1])
  }

  /**
   * The n-grams of width `width` read by a window sliding over `text` with
   * stride 1: one per start position that leaves a full window, none when the
   * text is shorter than the window.
   */
  function Windows(text: string, width: nat): (windows: seq<string>)
    requires width > 0
    ensures |windows| == if |text| < width then 0 else |text| - width + 1
  {
    if |text| < width then []
    else seq(|text| - width + 1, i requires 0 <= i < |text| - width + 1 => text[i..i + width])
  }

  lemma TallySnoc(s: seq<string>, x: string)
    ensures Tally(s + [x]) == Bump(Tally(s), x)
  {
  }

  lemma {:induction false} SumOverUnchanged(keys: seq<string>, counts: map<string, nat>, k: string, v: nat)
    requires forall i :: 0 <= i < |keys| ==> keys[i] in counts
    requires k !in keys
    ensures SumOver(keys, counts[k := v]) == SumOver(keys, counts)
  {
    if keys != [] {
      SumOverUnchanged(keys[1..], counts, k, v);
    }
  }

  lemma {:induction false} SumOverBump(keys: seq<string>, counts: map<string, nat>, k: string)
    requires forall i :: 0 <= i < |keys| ==> keys[i] in counts
    requires Distinct(keys) && k in keys
    ensures SumOver(keys, counts[k := counts[k] + 1]) == SumOver(keys, counts) + 1
  {
    if keys[0] == k {
      assert k !in keys[1..];
      SumOverUnchanged(keys[1..], counts, k, counts[k] + 1);
    } else {
      SumOverBump(keys[1..], counts, k);
    }
  }

  lemma {:induction false} SumOverAppend(keys: seq<string>, counts: map<string, nat>, k: string)
    requires forall i :: 0 <= i < |keys| ==> keys[i] in counts
    requires k in counts
    ensures SumOver(keys + [k], counts) == SumOver(keys, counts) + counts[k]
  {
    if keys == [] {
      assert keys + [k] == [k];
    } else {
      assert (keys + [k])[1..] == keys[1..] + [k];
      SumOverAppend(keys[1..], counts, k);
    }
  }

  /** The keys of the dictionary built from `s` are exactly the elements of `s`. */
  lemma {:induction false} TallyDomain(s: seq<string>)
    ensures forall k :: k in Tally(s).counts <==> k in s
  {
    if s != [] {
      var p := s[..|s| - 1];
      assert s == p + [s[|s| - 1]];
      TallyDomain(p);
    }
  }

  /**
   * Recording an occurrence keeps a well-formed table well formed, adds
   * `ngram` as a key if it was not one, leaves every other key and its count
   * as they were, and adds one to the sum of the counts.
   */
  lemma BumpValid(w: Table, ngram: string)
    requires w.Valid()
    ensures Bump(w, ngram).Valid()
    ensures forall k :: k in Bump(w, ngram).counts <==> k in w.counts || k == ngram
    ensures forall k :: k in w.counts && k != ngram ==> Bump(w, ngram).counts[k] == w.counts[k]
    ensures Bump(w, ngram).Total() == w.Total() + 1
  {
    if ngram in w.counts {
      SumOverBump(w.keys, w.counts, ngram);
    } else {
      SumOverUnchanged(w.keys, w.counts, ngram, 1);
      SumOverAppend(w.keys, w.counts[ngram := 1], ngram);
    }
  }

  /**
   * The dictionary built from `s` is well formed, has exactly the elements of
   * `s` as keys, maps each to its number of occurrences in `s`, and its counts
   * add up to `|s|`.
   */
  lemma {:induction false} TallyCounts(s: seq<string>)
    ensures Tally(s).Valid()
    ensures forall k :: k in Tally(s).counts <==> k in s
    ensures forall k :: k in Tally(s).counts ==> Tally(s).counts[k] == Count(s, k)
    ensures Tally(s).Total() == |s|
  {
    if s != [] {
      var p, x := s[..|s| - 1], s[|s| - 1];
      assert s == p + [x];
      TallyCounts(p);
      var w, t := Tally(p), Tally(s);
      BumpValid(w, x);
      forall k | k in t.counts ensures t.counts[k] == Count(s, k) {
        CountConcat(p, [x], k);
        if k == x && x !in w.counts {
          CountPositive(p, x);
        }
      }
    }
  }

  /** The keys stand in the order in which their n-grams first occur in `s`. */
  lemma {:induction false} TallyOrder(s: seq<string>)
    ensures forall k :: k in Tally(s).keys ==> k in s
    ensures forall i, j :: 0 <= i < j < |Tally(s).keys| ==>
              IndexOf(s, Tally(s).keys[i]) < IndexOf(s, Tally(s).keys[j])
  {
    if s != [] {
      var p, x := s[..|s| - 1], s[|s| - 1];
      assert s == p + [x];
      TallyOrder(p);
      TallyCounts(p);
      var w := Tally(p);
      forall k | k in w.keys ensures IndexOf(s, k) == IndexOf(p, k) {
        IndexOfAppend(p, x, k);
      }
      if x !in w.counts {
        assert x !in p && s[|p|] == x;
      }
    }
  }

  /** A window of `text` is the slice of `text` of the given width at some position `i`. */
  lemma WindowAt(text: string, width: nat, k: string) returns (i: nat)
    requires width > 0 && k in Windows(text, width)
    ensures i + width <= |text| && k == text[i..i + width]
  {
    var ws := Windows(text, width);
    i :| 0 <= i < |ws| && ws[i] == k;
  }

  /** The dictionary counted from the windows of `text` is well formed and every key has the window's width. */
  lemma TallyKeys(text: string, width: nat)
    requires width > 0
    ensures Tally(Windows(text, width)).Valid()
    ensures forall k :: k in Tally(Windows(text, width)).counts ==> |k| == width
  {
    var windows := Windows(text, width);
    TallyCounts(windows);
    forall k | k in Tally(windows).counts ensures |k| == width {
      var at := WindowAt(text, width, k);
    }
  }

  /** A character absent from `text` is absent from every key counted from its windows. */
  lemma KeysAvoid(text: string, width: nat, c: char)
    requires width > 0 && c !in text
    ensures forall k :: k in Tally(Windows(text, width)).counts ==> c !in k
  {
    var windows := Windows(text, width);
    TallyDomain(windows);
    forall k | k in Tally(windows).counts ensures c !in k {
      var at := WindowAt(text, width, k);
      assert forall i :: 0 <= i < |k| ==> k[i] == text[at + i];
    }
  }

  /** Every character of a text that holds at least one window lies inside some counted key. */
  lemma KeyHolding(text: string, width: nat, pos: nat) returns (k: string)
    requires 0 < width <= |text| && pos < |text|
    ensures k in Tally(Windows(text, width)).counts && text[pos] in k
  {
    var start := if pos + width <= |text| then pos else |text| - width;
    var windows := Windows(text, width);
    TallyDomain(windows);
    k := windows[start];
    assert k[pos - start] == text[pos];
  }

  lemma WindowsCons(text: string, width: nat)
    requires width > 0 && |text| >= width
    ensures Windows(text, width) == [text[..width]] + Windows(text[1..], width)
  {
    var a, b := Windows(text, width), [text[..width]] + Windows(text[1..], width);
    assert |a| == |b|;
    forall i | 0 <= i < |a| ensures a[i] == b[i] {
      if i > 0 {
        assert text[1..][i - 1..i - 1 + width] == text[i..i + width];
      }
    }
  }

  /** Counting one-character windows is counting characters. */
  lemma {:induction false} UnigramWindowCount(text: string, c: char)
    ensures Count(Windows(text, 1), [c]) == Count(text, c)
  {
    if text != [] {
      WindowsCons(text, 1);
      assert text[..1] == [text[0]];
      var ws := Windows(text, 1);
      assert ws[0] == [text[0]] && ws[1..] == Windows(text[1..], 1);
      UnigramWindowCount(text[1..], c);
    }
  }

  /** The number of positions `i` with `i + 1 < |text|`, `text[i] == a` and `text[i + 1] == b`; overlapping pairs all count. */
  function PairCount(text: string, a: char, b: char): nat {
    if |text| < 2 then 0
    else (if text[0] == a && text[1] == b then 1 else 0) + PairCount(text[1..], a, b)
  }

  lemma {:induction false} BigramWindowCount(text: string, a: char, b: char)
    ensures Count(Windows(text, 2), [a, b]) == PairCount(text, a, b)
  {
    if |text| >= 2 {
      WindowsCons(text, 2);
      assert text[..2] == [text[0], text[1]];
      BigramWindowCount(text[1..], a, b);
    }
  }

  /**
   * `weight_unigrams`: one entry per character of `text`, counting its
   * occurrences, in order of first occurrence.
   */
  method WeightUnigrams(text: string) returns (w: Table)
    ensures w == Tally(Windows(text, 1))
  {
    ghost var windows := Windows(text, 1);
    var keys: seq<string> := [];
    var counts: map<string, nat> := map[];
    for i := 0 to |text|
      invariant Table(keys, counts) == Tally(windows[..i])
    {
      var unigram := [text[i]];
      assert windows[i] == unigram;
      assert windows[..i + 1] == windows[..i] + [unigram];
      TallySnoc(windows[..i], unigram);
      if unigram !in counts {
        keys := keys + [unigram];
      }
      counts := counts[unigram := (if unigram in counts then counts[unigram] else 0) + 1];
    }
    assert windows[..|text|] == windows;
    w := Table(keys, counts);
  }

  /**
   * `weight_bigrams`: a width-2 window slides over `text` with stride 1 while
   * a full pair remains, counting each pair, overlapping ones included.
   */
  method WeightBigrams(text: string) returns (w: Table)
    ensures w == Tally(Windows(text, 2))
  {
    ghost var windows := Windows(text, 2);
    var keys: seq<string> := [];
    var counts: map<string, nat> := map[];
    for i := 0 to |text|
      invariant Table(keys, counts) == Tally(windows[..if i < |windows| then i else |windows|])
    {
      if i + 1 < |text| {
        var bigram := [text[i]] + [text[i + 1]];
        assert windows[i] == bigram;
        assert windows[..i + 1] == windows[..i] + [bigram];
        TallySnoc(windows[..i], bigram);
        if bigram !in counts {
          keys := keys + [bigram];
        }
        counts := counts[bigram := (if bigram in counts then counts[bigram] else 0) + 1];
      }
    }
    assert windows[..|windows|] == windows;
    w := Table(keys, counts);
  }

  /**
   * What `weight_unigrams` promises: every key is one character of the text,
   * counted as often as it occurs; every character of the text is a key; the
   * counts add up to the length of the text.
   */
  lemma UnigramTable(text: string)
    ensures Tally(Windows(text, 1)).Valid()
    ensures forall k :: k in Tally(Windows(text, 1)).counts ==>
              |k| == 1 && k[0] in text && Tally(Windows(text, 1)).counts[k] == Count(text, k[0])
    ensures forall c :: c in text ==> [c] in Tally(Windows(text, 1)).counts
    ensures Tally(Windows(text, 1)).Total() == |text|
  {
    var s := Windows(text, 1);
    TallyCounts(s);
    forall k | k in Tally(s).counts
      ensures |k| == 1 && k[0] in text && Tally(s).counts[k] == Count(text, k[0])
    {
      UnigramWindow(text, k);
    }
    forall c | c in text ensures [c] in Tally(s).counts {
      var i :| 0 <= i < |text| && text[i] == c;
      assert s[i] == [c];
    }
  }

  lemma UnigramWindow(text: string, k: string)
    requires k in Windows(text, 1)
    ensures |k| == 1 && k[0] in text
    ensures Count(Windows(text, 1), k) == Count(text, k[0])
  {
    var i := WindowAt(text, 1, k);
    assert k == [k[0]];
    UnigramWindowCount(text, k[0]);
  }

  /**
   * What `weight_bigrams` promises of its keys: every key is a pair of
   * adjacent characters of the text, counted once per position where it
   * starts (overlaps included), and every adjacent pair is a key.
   */
  lemma BigramTable(text: string)
    ensures Tally(Windows(text, 2)).Valid()
    ensures forall k :: k in Tally(Windows(text, 2)).counts ==>
              && |k| == 2
              && (exists i :: 0 <= i < |text| - 1 && text[i] == k[0] && text[i + 1] == k[1])
              && Tally(Windows(text, 2)).counts[k] == PairCount(text, k[0], k[1])
    ensures forall i :: 0 <= i < |text| - 1 ==> [text[i], text[i + 1]] in Tally(Windows(text, 2)).counts
  {
    var s := Windows(text, 2);
    TallyCounts(s);
    var w := Tally(s);
    forall k | k in w.counts
      ensures && |k| == 2
              && (exists i :: 0 <= i < |text| - 1 && text[i] == k[0] && text[i + 1] == k[1])
              && w.counts[k] == PairCount(text, k[0], k[1])
    {
      BigramWindow(text, k);
    }
    forall i | 0 <= i < |text| - 1 ensures [text[i], text[i + 1]] in w.counts {
      assert s[i] == [text[i], text[i + 1]];
    }
  }

  lemma BigramWindow(text: string, k: string)
    requires k in Windows(text, 2)
    ensures |k| == 2
    ensures exists i :: 0 <= i < |text| - 1 && text[i] == k[0] && text[i + 1] == k[1]
    ensures Count(Windows(text, 2), k) == PairCount(text, k[0], k[1])
  {
    var i := WindowAt(text, 2, k);
    assert text[i] == k[0] && text[i + 1] == k[1];
    assert k == [k[0], k[1]];
    BigramWindowCount(text, k[0], k[1]);
  }

  /**
   * The bigram counts add up to `|text| - 1`, and a text of fewer than two
   * characters gives an empty table.
   */
  lemma BigramTotal(text: string)
    ensures Tally(Windows(text, 2)).Valid()
    ensures Tally(Windows(text, 2)).Total() == if |text| < 2 then 0 else |text| - 1
    ensures |text| < 2 <==> Tally(Windows(text, 2)) == Empty
  {
    TallyCounts(Windows(text, 2));
    if |text| >= 2 {
      assert text[..2] in Windows(text, 2);
    }
  }

  /** Pairs overlap: in "aaa" the pair "aa" is counted twice. */
  lemma BigramsOverlap()
    ensures "aa" in Tally(Windows("aaa", 2)).counts && Tally(Windows("aaa", 2)).counts["aa"] == 2
  {
    BigramTable("aaa");
    assert "aa" == ["aaa"[0], "aaa"[1]];
    assert PairCount("aaa", 'a', 'a') == 1 + PairCount("aa", 'a', 'a');
    assert PairCount("aa", 'a', 'a') == 1 + PairCount("a", 'a', 'a');
  }
}
