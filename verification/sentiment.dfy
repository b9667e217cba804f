/** `get_sentiment` and `classify_comment` of task3.py (lines 32-40 and
  134-137): the label of a text is decided by the sign of its polarity.

  TextBlob's polarity score is a parameter, a total function from the text to
  a number in whatever range it produces; only its sign matters here.
*/
module Sentiment {
  import opened Frames
  import opened TextClean

  /** The three labels, in the alphabetical order in which they become
      columns of an `unstack()`. */
  datatype Label = Negative | Neutral | Positive

  /** TextBlob's `sentiment.polarity` of a text. */
  type Polarity = string -> real

  /** Lines 35-40: positive above zero, negative below, neutral at zero. */
  function Classify(polarity: real): (l: Label)
    ensures l == Positive <==> polarity > 0.0
    ensures l == Negative <==> polarity < 0.0
    ensures l == Neutral <==> polarity == 0.0
  {
    if polarity > 0.0 then Positive
    else if polarity < 0.0 then Negative
    else Neutral
  }

  /** Lines 32-40, `get_sentiment`. */
  function GetSentiment(p: Polarity, text: string): (l: Label)
    ensures l == Positive <==> p(text) > 0.0
    ensures l == Negative <==> p(text) < 0.0
    ensures l == Neutral <==> p(text) == 0.0
  {
    Classify(p(text))
  }

  /** Lines 134-137, `classify_comment`: the sentiment of the cleaned text, so
      a comment that is not a string is judged as the empty text. */
  function ClassifyComment(a: Alphabet, p: Polarity, t: Comment): (l: Label)
    ensures l == Positive <==> p(CleanText(a, t)) > 0.0
    ensures l == Negative <==> p(CleanText(a, t)) < 0.0
    ensures t.NotText? ==> l == Classify(p([]))
  {
    GetSentiment(p, CleanText(a, t))
  }

  /** Theorem: a comment is positive exactly when the polarity of its cleaned
      text is, whatever its short words and punctuation were. */
  lemma ClassifyCommentPositive(a: Alphabet, p: Polarity, s: string)
    ensures ClassifyComment(a, p, Text(s)) == Positive <==>
      p(Filter(KeepFrom(a.word, Lower(a, s), 0), c => a.word(c) || a.space(c))) > 0.0
  {
    CleanTextKeeps(a, s);
  }

  /** Theorem (lines 20 and 25): a value that is not a string is classified
      like the empty comment. */
  lemma NotTextIsEmpty(a: Alphabet, p: Polarity)
    ensures ClassifyComment(a, p, NotText) == ClassifyComment(a, p, Text([]))
  {
    assert Lower(a, []) == [];
  }
}
