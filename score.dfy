/** The simulated score change shared by the user service and the user
    controller: the random step, the 300..850 clamp, the current-score
    fallback and the history note. The random step is a parameter. */
module Score {
  import opened Common
  import opened Text

  const MinScore := 300
  const MaxScore := 850

  /** `Math.floor(Math.random() * 51) - 25` can take exactly these values. */
  predicate ValidDelta(delta: int) {
    -25 <= delta <= 25
  }

  /** `Math.max(300, Math.min(850, x))` */
  function Clamp(x: int): (r: int)
    ensures MinScore <= r <= MaxScore
    ensures MinScore <= x <= MaxScore ==> r == x
    ensures x < MinScore ==> r == MinScore
    ensures x > MaxScore ==> r == MaxScore
  {
    var upper := if x < MaxScore then x else MaxScore;
    if upper > MinScore then upper else MinScore
  }

  /** From a score in range, one clamped step moves the score by at most the
      step, and in the step's direction. */
  lemma ClampedStep(current: int, delta: int)
    requires MinScore <= current <= MaxScore
    ensures delta >= 0 ==> current <= Clamp(current + delta) <= current + delta
    ensures delta <= 0 ==> current + delta <= Clamp(current + delta) <= current
  {
  }

  /** `user.creditScore || 300`: a zero score counts as the default. */
  function CurrentScore(stored: int): (r: int)
    ensures stored != 0 ==> r == stored
    ensures stored == 0 ==> r == MinScore
  {
    if stored == 0 then MinScore else stored
  }

  const NotePrefix := "Simulated score update. Change: "

  /** The history note: the prefix, a `+` for a positive change only, then
      the change in decimal. */
  function ChangeNote(delta: int): string {
    NotePrefix + (if delta > 0 then "+" else "") + IntToDecimal(delta)
  }

  /** The note starts with the prefix, carries a sign character `+` exactly
      when the change is positive, and its tail reads back as the change. */
  lemma ChangeNoteDecodes(delta: int)
    ensures |ChangeNote(delta)| > |NotePrefix| && ChangeNote(delta)[..|NotePrefix|] == NotePrefix
    ensures ChangeNote(delta)[|NotePrefix|] == '+' <==> delta > 0
    ensures ParseInt(ChangeNote(delta)[|NotePrefix|..]) == Some(delta)
  {
    var tail := ChangeNote(delta)[|NotePrefix|..];
    if delta > 0 {
      assert tail == "+" + NatToDecimal(delta);
      assert tail[1..] == NatToDecimal(delta);
      ParseNatToDecimal(delta);
    } else {
      assert tail == IntToDecimal(delta);
      ParseIntToDecimal(delta);
      if delta < 0 {
        assert tail[0] == '-';
      } else {
        assert tail == NatToDecimal(0);
        assert IsDigit(tail[0]);
      }
    }
  }
}
