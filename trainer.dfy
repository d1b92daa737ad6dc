/**
 * The training loop: for every file of the training folder, normalise its
 * text, count its unigrams or bigrams and write the counts to a profile file
 * named after it. Listing the folder, reading and decoding the files and
 * writing the results are I/O: the files come in as (name, decoded text)
 * pairs and the writes go out as (file name, contents) pairs, in order.
 */
module Trainer {
  import opened Basics
  import opened TextNormalizer
  import opened NgramCounter
  import opened ProfileFormat

  const UnigramWeightsExtension: string := "-unigram-weights.txt"
  const BigramWeightsExtension: string := "-bigram-weights.txt"

  datatype NgramOrder = Unigram | Bigram

  /** The order selected by the size given on the command line: 1 is unigrams, anything else bigrams. */
  function OrderOf(ngramSize: int): (order: NgramOrder)
    ensures ngramSize == 1 <==> Width(order) == 1
    ensures ngramSize != 1 <==> Width(order) == 2
  {
    if ngramSize == 1 then Unigram else Bigram
  }

  function Width(order: NgramOrder): nat {
    match order
    case Unigram => 1
    case Bigram => 2
  }

  function WeightsExtension(order: NgramOrder): string {
    match order
    case Unigram => UnigramWeightsExtension
    case Bigram => BigramWeightsExtension
  }

  /**
   * The name of the profile written for the training file `fileName`: the
   * file name itself, followed by the suffix of the selected order.
   */
  function WeightsFileName(fileName: string, ngramSize: int): string {
    fileName + WeightsExtension(OrderOf(ngramSize))
  }

  /**
   * The dictionary counted for a raw training text: the tally of the
   * windows of the selected width over the normalised text.
   */
  function TrainedWeights(ngramSize: int, raw: string): Table {
    Tally(Windows(Preprocess(raw), Width(OrderOf(ngramSize))))
  }

  /** The profile text written for a raw training text. */
  function TrainedProfile(ngramSize: int, raw: string): string {
    ProfileText(TrainedWeights(ngramSize, raw).Items())
  }

  /**
   * The body of `train`'s loop for one training file: normalise, count with
   * the counter of the selected order, name the profile and render it.
   */
  method TrainFile(ngramSize: int, fileName: string, raw: string) returns (weightsFileName: string, contents: string)
    ensures weightsFileName == WeightsFileName(fileName, ngramSize)
    ensures contents == TrainedProfile(ngramSize, raw)
  {
    var text := Preprocess(raw);
    var weights: Table;
    if ngramSize == 1 {
      weights := WeightUnigrams(text);
      weightsFileName := fileName + UnigramWeightsExtension;
    } else {
      weights := WeightBigrams(text);
      weightsFileName := fileName + BigramWeightsExtension;
    }
    TallyKeys(text, Width(OrderOf(ngramSize)));
    assert weights == TrainedWeights(ngramSize, raw);
    contents := SaveWeights(weights);
  }

  /**
   * `train` without the file system: the training files are handled one
   * after another, in listing order, and each gives one write, its profile
   * name and its profile text.
   */
  method Train(ngramSize: int, corpus: seq<(string, string)>) returns (written: seq<(string, string)>)
    ensures |written| == |corpus|
    ensures forall i :: 0 <= i < |corpus| ==>
              && written[i].0 == WeightsFileName(corpus[i].0, ngramSize)
              && written[i].1 == TrainedProfile(ngramSize, corpus[i].1)
  {
    written := [];
    for f := 0 to |corpus|
      invariant |written| == f
      invariant forall i :: 0 <= i < f ==>
                  && written[i].0 == WeightsFileName(corpus[i].0, ngramSize)
                  && written[i].1 == TrainedProfile(ngramSize, corpus[i].1)
    {
      var weightsFileName, contents := TrainFile(ngramSize, corpus[f].0, corpus[f].1);
      written := written + [(weightsFileName, contents)];
    }
  }

  /**
   * The profile name starts with the training file's name and ends in the
   * suffix of the order. The two suffixes differ, so the name tells the
   * order apart: it ends in the unigram suffix exactly when the size is 1,
   * and in the bigram suffix exactly when it is not.
   */
  lemma WeightsFileNameSuffix(fileName: string, ngramSize: int)
    ensures var name := WeightsFileName(fileName, ngramSize);
            && |name| > |fileName| && name[..|fileName|] == fileName
            && (ngramSize == 1 <==> name[|fileName|..] == UnigramWeightsExtension)
            && (ngramSize != 1 <==> name[|fileName|..] == BigramWeightsExtension)
  {
    var name := WeightsFileName(fileName, ngramSize);
    assert name[..|fileName|] == fileName;
    assert name[|fileName|..] == WeightsExtension(OrderOf(ngramSize));
    assert UnigramWeightsExtension[1] != BigramWeightsExtension[1];
  }

  /**
   * Distinct training files give distinct profile names, so no profile of
   * one run overwrites another.
   */
  lemma WeightsFileNamesDistinct(a: string, b: string, ngramSize: int)
    requires a != b
    ensures WeightsFileName(a, ngramSize) != WeightsFileName(b, ngramSize)
  {
    WeightsFileNameSuffix(a, ngramSize);
    WeightsFileNameSuffix(b, ngramSize);
  }

  /**
   * A trained dictionary is well formed, has no entry exactly when the
   * normalised text is too short to hold one n-gram, and its counts add up
   * to the number of n-grams read from the normalised text: its length for
   * unigrams, one less for bigrams.
   */
  lemma TrainedTotal(ngramSize: int, raw: string)
    ensures TrainedWeights(ngramSize, raw).Valid()
    ensures TrainedWeights(ngramSize, raw).keys == [] <==> |Preprocess(raw)| < Width(OrderOf(ngramSize))
    ensures var n := |Preprocess(raw)|;
            TrainedWeights(ngramSize, raw).Total() ==
              if ngramSize == 1 then n else if n < 2 then 0 else n - 1
  {
    var text := Preprocess(raw);
    var windows := Windows(text, Width(OrderOf(ngramSize)));
    TallyDomain(windows);
    assert |windows| > 0 ==> windows[0] in TrainedWeights(ngramSize, raw).counts;
    if ngramSize == 1 {
      UnigramTable(text);
    } else {
      BigramTotal(text);
    }
  }

  /**
   * A trained profile reads back as the dictionary it was written from,
   * provided the training text holds no tab and no newline. The normaliser
   * keeps both characters, so an n-gram containing one would break its record.
   */
  lemma TrainedProfileReadsBack(ngramSize: int, raw: string)
    requires Tab !in raw && Newline !in raw
    ensures TrainedWeights(ngramSize, raw).Valid()
    ensures ReadProfile(TrainedProfile(ngramSize, raw)) == Some(TrainedWeights(ngramSize, raw).Items())
  {
    var text := Preprocess(raw);
    var width := Width(OrderOf(ngramSize));
    TallyKeys(text, width);
    CountPositive(raw, Tab);
    CountPositive(raw, Newline);
    PreprocessKeepsTabsAndNewlines(raw);
    CountZero(text, Tab);
    CountZero(text, Newline);
    KeysAvoid(text, width, Tab);
    KeysAvoid(text, width, Newline);
    var w := TrainedWeights(ngramSize, raw);
    var items := w.Items();
    forall i | 0 <= i < |items| ensures Writable(items[i].0) {
      assert items[i].0 in w.counts;
    }
    ProfileRoundTrip(items);
  }

  /**
   * A trained profile is empty exactly when the normalised text is too short
   * to hold one n-gram, and when the training text has no newline it holds
   * one line per dictionary entry.
   */
  lemma TrainedProfileLines(ngramSize: int, raw: string)
    ensures TrainedProfile(ngramSize, raw) == [] <==> |Preprocess(raw)| < Width(OrderOf(ngramSize))
    ensures Newline !in raw ==> Count(TrainedProfile(ngramSize, raw), Newline) == |TrainedWeights(ngramSize, raw).keys|
  {
    var text := Preprocess(raw);
    var width := Width(OrderOf(ngramSize));
    TallyKeys(text, width);
    TrainedTotal(ngramSize, raw);
    var w := TrainedWeights(ngramSize, raw);
    var items := w.Items();
    if Newline !in raw {
      PreprocessKeepsTabsAndNewlines(raw);
      CountPositive(raw, Newline);
      CountZero(text, Newline);
      KeysAvoid(text, width, Newline);
      forall i | 0 <= i < |items| ensures Newline !in items[i].0 {
        assert items[i].0 in w.counts;
      }
      OneRecordPerEntry(items);
    }
  }

  /**
   * The converse: when a tab or a newline survives normalisation inside at
   * least one n-gram, the profile does not read back. Normalisation keeps
   * both characters, so any tab or newline of the training text reaches some
   * n-gram as soon as the normalised text is long enough to hold one.
   */
  lemma TrainedProfileUnreadable(ngramSize: int, raw: string)
    requires Tab in raw || Newline in raw
    requires |Preprocess(raw)| >= Width(OrderOf(ngramSize))
    ensures ReadProfile(TrainedProfile(ngramSize, raw)) == None
  {
    var text := Preprocess(raw);
    var width := Width(OrderOf(ngramSize));
    var pos: nat;
    if Tab in raw {
      pos := KeptAt(raw, Tab);
    } else {
      pos := KeptAt(raw, Newline);
    }
    TallyKeys(text, width);
    var k := KeyHolding(text, width, pos);
    var w := TrainedWeights(ngramSize, raw);
    var at := IndexOf(w.keys, k);
    var items := w.Items();
    assert items[at].0 == k && !Writable(k);
    forall i | 0 <= i < |items| ensures 1 <= |items[i].0| <= 2 {
      assert items[i].0 in w.counts;
    }
    UnreadableProfile(items, at);
  }
}
