/**
 * The vertical ruler fixed to the right edge of the page (components/ui/Ruler.tsx).
 * It draws `MarkCount` marks, ten units apart, and gives each a tick
 * of one of three lengths; the longest ticks also carry the mark as a label.
 */
module Ruler {

  /** Number of marks the ruler draws (`Array.from({ length: 100 }, ...)`). */
  const MarkCount := 100
  /** The first `n` marks, ten units apart: mark `i` is `i * 10`. */
  function MarksUpTo(n: nat): (ms: seq<int>)
    ensures |ms| == n
    ensures n > 0 ==> ms[0] == 0
    ensures forall i :: 0 < i < n ==> ms[i] == ms[i - 1] + 10
  {
    seq(n, i => i * 10)
  }

  /** All the marks the ruler draws, each within the ruler's 0..990 range. */
  function Marks(): (ms: seq<int>)
    ensures |ms| == MarkCount
    ensures forall i :: 0 <= i < |ms| ==> 0 <= ms[i] <= 990
  {
    MarksUpTo(MarkCount)
  }

  /** The three tick kinds: labelled and longest, medium, minor. */
  datatype Tick = Labelled(caption: int) | MediumTick | MinorTick

  /**
   * The tick drawn for one mark: labelled when the mark is a multiple of 100,
   * medium when it is a multiple of 50 only, minor otherwise. Only whether a
   * remainder is zero matters, and that is the same under truncating and
   * Euclidean `%`.
   */
  function Classify(mark: int): (t: Tick)
    ensures t.Labelled? <==> mark % 100 == 0
    ensures t.Labelled? ==> t.caption == mark
    ensures t.MediumTick? <==> mark % 50 == 0 && mark % 100 != 0
    ensures t.MinorTick? <==> mark % 50 != 0
  {
    if mark % 100 == 0 then
      assert mark == 50 * (2 * (mark / 100));
      Labelled(mark)
    else if mark % 50 == 0 then
      MediumTick
    else
      MinorTick
  }

  /** The ticks drawn for a list of marks, in order. */
  function Ticks(marks: seq<int>): (ts: seq<Tick>)
    ensures |ts| == |marks|
    ensures forall i :: 0 <= i < |marks| ==> ts[i] == Classify(marks[i])
  {
    seq(|marks|, i requires 0 <= i < |marks| => Classify(marks[i]))
  }

  /** How many ticks of each kind a list holds. */
  datatype Tally = Tally(labelled: nat, medium: nat, minor: nat)

  /** Counts the ticks of each kind; every tick falls in exactly one count. */
  function TallyOf(ts: seq<Tick>): (c: Tally)
    ensures c.labelled + c.medium + c.minor == |ts|
  {
    if ts == [] then Tally(0, 0, 0)
    else
      var c := TallyOf(ts[..|ts| - 1]);
      match ts[|ts| - 1]
      case Labelled(_) => c.(labelled := c.labelled + 1)
      case MediumTick => c.(medium := c.medium + 1)
      case MinorTick => c.(minor := c.minor + 1)
  }

  /** The marks are 0, 10, ..., 990: strictly increasing, the first 0, the last 990. */
  lemma MarksShape()
    ensures |Marks()| == MarkCount
    ensures Marks()[0] == 0 && Marks()[MarkCount - 1] == 990
    ensures forall i, j :: 0 <= i < j < MarkCount ==> Marks()[i] < Marks()[j]
  {
  }

  /** Adding a hundred to a mark changes neither of the remainders `Classify` tests. */
  lemma ShiftByHundred(x: int)
    ensures (x + 100) % 100 == x % 100
    ensures (x + 100) % 50 == x % 50
  {
  }

  /** The remainders of mark `i * 10` that `Classify` tests are fixed by `i % 10`. */
  lemma {:induction false} MarkRemainders(i: nat)
    ensures (i * 10) % 100 == (i % 10) * 10
    ensures (i * 10) % 50 == (i % 5) * 10
  {
    if i < 10 {
      assert i % 10 == i;
      if i < 5 {
        assert i % 5 == i;
      } else {
        assert i % 5 == i - 5;
        assert i * 10 == 50 + (i - 5) * 10;
      }
    } else {
      MarkRemainders(i - 10);
      ShiftByHundred((i - 10) * 10);
      assert i * 10 == (i - 10) * 10 + 100;
      assert i % 10 == (i - 10) % 10;
      assert i % 5 == (i - 10) % 5;
    }
  }

  /** The class of mark `i * 10` depends only on `i % 10`. */
  lemma MarkClass(i: nat)
    ensures Classify(i * 10).Labelled? <==> i % 10 == 0
    ensures Classify(i * 10).MediumTick? <==> i % 10 == 5
  {
    MarkRemainders(i);
  }

  /** Over the first `n` marks: one labelled tick per ten marks, one medium tick per ten, the rest minor. */
  lemma {:induction false} TallyOfPrefix(n: nat)
    ensures TallyOf(Ticks(MarksUpTo(n))) == Tally((n + 9) / 10, (n + 4) / 10, n - (n + 9) / 10 - (n + 4) / 10)
  {
    if n > 0 {
      TallyOfPrefix(n - 1);
      var ts := Ticks(MarksUpTo(n));
      assert ts[..n - 1] == Ticks(MarksUpTo(n - 1));
      MarkClass(n - 1);
      CountStep(n - 1);
    }
  }

  /** Adding mark `i` raises the labelled count exactly when `i % 10 == 0` and the medium count exactly when `i % 10 == 5`. */
  lemma CountStep(i: nat)
    ensures (i + 10) / 10 == (i + 9) / 10 + (if i % 10 == 0 then 1 else 0)
    ensures (i + 5) / 10 == (i + 4) / 10 + (if i % 10 == 5 then 1 else 0)
  {
  }

  /** The whole ruler: 10 labelled, 10 medium and 80 minor ticks. */
  lemma RulerTally()
    ensures TallyOf(Ticks(Marks())) == Tally(10, 10, 80)
  {
    TallyOfPrefix(MarkCount);
  }
}
