/** The HH:MM label the page writes next to the hour slider. */
module TimeText {
  import opened JsNumber

  /** Whole minutes past the hour: `Math.floor((h % 1) * 60)`. */
  function Minutes(h: real): int {
    (Rem1(h) * 60.0).Floor
  }

  /** The label for hour h: padded `Math.floor(h)`, a colon, padded minutes. */
  function TimeLabel(h: real): string {
    PadStart2(IntToString(h.Floor)) + ":" + PadStart2(IntToString(Minutes(h)))
  }

  /**
   * For every hour of the day the label is five characters "HH:MM" whose two
   * digit pairs read back as the whole hours (00 to 23) and the whole minutes
   * of the fractional part (00 to 59).
   */
  lemma TimeLabelFormat(h: real)
    requires 0.0 <= h < 24.0
    ensures var s := TimeLabel(h);
      |s| == 5 && s[2] == ':' &&
      IsDigit(s[0]) && IsDigit(s[1]) && IsDigit(s[3]) && IsDigit(s[4]) &&
      DigitValue(s[0]) * 10 + DigitValue(s[1]) == h.Floor &&
      DigitValue(s[3]) * 10 + DigitValue(s[4]) == Minutes(h)
    ensures 0 <= h.Floor <= 23
    ensures 0 <= Minutes(h) <= 59
    ensures Minutes(h) as real <= (h - h.Floor as real) * 60.0 < Minutes(h) as real + 1.0
  {
    var hrs := h.Floor;
    var mins := Minutes(h);
    assert Rem1(h) == h - hrs as real;
    assert 0 <= mins < 60;
    PaddedTwoDigits(hrs);
    PaddedTwoDigits(mins);
  }

  /** Hour 6 reads "06:00" and hour 13.75 reads "13:45". */
  lemma TimeLabelExamples()
    ensures TimeLabel(6.0) == "06:00"
    ensures TimeLabel(13.75) == "13:45"
  {
    PaddedTwoDigits(6);
    PaddedTwoDigits(0);
    PaddedTwoDigits(13);
    PaddedTwoDigits(45);
    assert Minutes(13.75) == 45;
  }
}
