/** The sentiment lexicon: each word with its integer polarity. A word of polarity 0 is in the
    lexicon (a neutral hit), which is not the same as being absent from it. */
module Lexicon {

  type Lexicon = map<string, int>

  /** A word together with its polarity, as the analyser's lists hold them. */
  type Hit = (string, int)

  function Abs(x: int): nat
  {
    if x < 0 then -x else x
  }
}
