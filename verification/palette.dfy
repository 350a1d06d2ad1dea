/** The traffic-light colours shared by the dashboard and the report. */
module Palette {

  datatype Colour = Green | Amber | Red

  /** Alarm level: red is the most alarming, green the least. */
  function Alarm(c: Colour): nat {
    match c
    case Green => 0
    case Amber => 1
    case Red => 2
  }

  const GoodThreshold: int := 70
  const FairThreshold: int := 40

  /** The band of a 0..100 score (app.py lines 105 and 108, pdf_generator.py line 119). */
  function ScoreBand(score: int): (c: Colour)
    ensures c == Green <==> score >= GoodThreshold
    ensures c == Amber <==> FairThreshold <= score < GoodThreshold
    ensures c == Red <==> score < FairThreshold
  {
    if score >= GoodThreshold then Green
    else if score >= FairThreshold then Amber
    else Red
  }

  /** A higher score never raises the alarm. */
  lemma ScoreBandMonotone(s: int, t: int)
    requires s <= t
    ensures Alarm(ScoreBand(t)) <= Alarm(ScoreBand(s))
  {
  }
}
