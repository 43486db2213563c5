/** Road-divider marks. Every frame the game throws away the marks it drew and
    recreates them from the scroll phase `lineY` alone: slot offsets i = -600,
    -540, ... below 1200 give a candidate y = lineY + i - 600, and a mark is
    drawn wherever that y lies in [0, 600]. This module states that loop as a
    function, gives an independent closed form (an evenly spaced run), and
    proves the two equal. */
module RoadLines {

  const ScreenHeight := 600
  const LineHeight := 40
  const LineSpacing := 20
  /** Step between two candidate slots, and so between two successive marks. */
  const Pitch := LineHeight + LineSpacing
  /** The loop's first slot offset and the bound it stays below. */
  const FirstSlot := -600
  const SlotEnd := 1200

  /** The marks the regeneration loop creates from slot offset `i` onwards, in creation order. */
  function MarksFrom(phase: int, i: int): seq<int>
    decreases SlotEnd - i
  {
    if i >= SlotEnd then []
    else
      var y := phase + i - ScreenHeight;
      (if 0 <= y <= ScreenHeight then [y] else []) + MarksFrom(phase, i + Pitch)
  }

  /** The marks present after one regeneration for scroll phase `phase`. */
  function RoadMarks(phase: int): seq<int>
  {
    MarksFrom(phase, FirstSlot)
  }

  /** The evenly spaced run lo, lo + Pitch, lo + 2 * Pitch, ... that does not pass hi. */
  function Run(lo: int, hi: int): seq<int>
    decreases hi - lo
  {
    if lo > hi then [] else [lo] + Run(lo + Pitch, hi)
  }

  /** The first mark at or below candidate y: y itself, or the next slot that reaches the screen. */
  function FirstOnScreen(y: int): int
  {
    if y >= 0 then y else y % Pitch
  }

  /** The lowest mark the loop can draw: its last slot, or the bottom edge if that is higher. */
  function LastOnScreen(phase: int): int
  {
    var lastSlot := phase + (SlotEnd - Pitch) - ScreenHeight;
    if lastSlot < ScreenHeight then lastSlot else ScreenHeight
  }

  lemma {:induction false} RunShape(lo: int, hi: int)
    ensures |Run(lo, hi)| == if lo > hi then 0 else (hi - lo) / Pitch + 1
    ensures forall k :: 0 <= k < |Run(lo, hi)| ==> Run(lo, hi)[k] == lo + Pitch * k
    decreases hi - lo
  {
    if lo <= hi {
      RunShape(lo + Pitch, hi);
      var r := Run(lo, hi);
      assert r == [lo] + Run(lo + Pitch, hi);
      forall k | 0 < k < |r| ensures r[k] == lo + Pitch * k {
        assert r[k] == Run(lo + Pitch, hi)[k - 1];
      }
    }
  }

  lemma {:induction false} RunMembers(lo: int, hi: int, y: int)
    ensures y in Run(lo, hi) <==> lo <= y <= hi && (y - lo) % Pitch == 0
    decreases hi - lo
  {
    if lo <= hi {
      RunMembers(lo + Pitch, hi, y);
      assert (y - lo) % Pitch == (y - (lo + Pitch)) % Pitch;
    }
  }

  /** Slot number k of the loop, counting from 0: its offset is -600 + 60k. */
  function Slot(k: nat): int
  {
    FirstSlot + Pitch * k
  }

  /** The number of slots the loop visits. */
  const SlotCount := (SlotEnd - FirstSlot) / Pitch

  /** Below the screen, one slot further gives the same first on-screen mark. */
  lemma FirstOnScreenStep(y: int)
    requires y < 0
    ensures FirstOnScreen(y + Pitch) == FirstOnScreen(y)
  {
    if y + Pitch >= 0 {
      assert y % Pitch == y + Pitch;
    } else {
      assert (y + Pitch) % Pitch == y % Pitch;
    }
  }

  /** The loop from slot k on draws exactly the run between the first and last on-screen slot. */
  lemma {:induction false} MarksFromIsRun(phase: int, k: nat)
    requires k <= SlotCount
    ensures MarksFrom(phase, Slot(k)) == Run(FirstOnScreen(phase + Slot(k) - ScreenHeight), LastOnScreen(phase))
    decreases SlotCount - k
  {
    var y := phase + Slot(k) - ScreenHeight;
    var hi := LastOnScreen(phase);
    if k < SlotCount {
      assert Slot(k + 1) == Slot(k) + Pitch;
      MarksFromIsRun(phase, k + 1);
      var rest := MarksFrom(phase, Slot(k) + Pitch);
      assert rest == Run(FirstOnScreen(y + Pitch), hi);
      if y < 0 {
        assert MarksFrom(phase, Slot(k)) == rest;
        FirstOnScreenStep(y);
      } else if y > ScreenHeight {
        assert MarksFrom(phase, Slot(k)) == rest;
        assert Run(y + Pitch, hi) == [];
        assert Run(y, hi) == [];
      } else {
        assert MarksFrom(phase, Slot(k)) == [y] + rest;
        assert y <= hi;
        assert Run(y, hi) == [y] + Run(y + Pitch, hi);
      }
    } else {
      assert Slot(k) == SlotEnd;
    }
  }

  /** The marks of a reachable phase are the run from phase mod 60 to the lowest on-screen slot. */
  lemma RoadMarksAsRun(phase: int)
    requires 0 <= phase < ScreenHeight
    ensures RoadMarks(phase) == Run(phase % Pitch, LastOnScreen(phase))
  {
    MarksFromIsRun(phase, 0);
    assert phase + Slot(0) - ScreenHeight == phase + Pitch * -20;
    ModShift(phase, -20);
  }

  /** For any phase the game can reach, the marks are 10 or 11 evenly spaced positions on
      screen, starting at phase mod 60 and 60 apart. */
  lemma RoadMarksShape(phase: int)
    requires 0 <= phase < ScreenHeight
    ensures |RoadMarks(phase)| == if phase >= Pitch && phase % Pitch == 0 then 11 else 10
    ensures forall k :: 0 <= k < |RoadMarks(phase)| ==> RoadMarks(phase)[k] == phase % Pitch + Pitch * k
    ensures forall k :: 0 <= k < |RoadMarks(phase)| ==> 0 <= RoadMarks(phase)[k] <= ScreenHeight
    ensures forall k :: 0 < k < |RoadMarks(phase)| ==> RoadMarks(phase)[k] == RoadMarks(phase)[k - 1] + Pitch
  {
    var lo, hi := phase % Pitch, LastOnScreen(phase);
    RoadMarksAsRun(phase);
    RunShape(lo, hi);
    var r := RoadMarks(phase);
    assert |r| == (hi - lo) / Pitch + 1;
    assert |r| == if phase >= Pitch && lo == 0 then 11 else 10 by {
      if phase < Pitch {
        assert lo == phase && hi == phase + 540;
        assert (hi - lo) / Pitch == 9;
      } else if lo == 0 {
        assert hi - lo == 600;
        assert (hi - lo) / Pitch == 10;
      } else {
        assert hi == ScreenHeight && 0 < lo < Pitch;
        assert (hi - lo) / Pitch == 9;
      }
    }
    forall k | 0 <= k < |r| ensures 0 <= r[k] <= ScreenHeight {
      assert r[k] == lo + Pitch * k;
      assert lo + Pitch * (|r| - 1) <= hi;
    }
  }

  /** Shifting by whole pitches keeps the remainder. */
  lemma ModShift(a: int, q: int)
    ensures (a + Pitch * q) % Pitch == a % Pitch
  {
  }

  /** A position carries a mark exactly when it is on screen, no lower than the loop's last
      slot, and a whole number of pitches away from the phase. */
  lemma RoadMarksMembers(phase: int, y: int)
    requires 0 <= phase < ScreenHeight
    ensures y in RoadMarks(phase) <==>
              0 <= y <= ScreenHeight && y <= phase + (SlotEnd - Pitch) - ScreenHeight && (y - phase) % Pitch == 0
  {
    var lo, q := phase % Pitch, phase / Pitch;
    RoadMarksAsRun(phase);
    RunMembers(lo, LastOnScreen(phase), y);
    assert y - lo == (y - phase) + Pitch * q;
    ModShift(y - phase, q);
    assert (y - phase) % Pitch == 0 && y >= 0 ==> y >= lo by {
      if (y - lo) % Pitch == 0 && y - lo < 0 {
        assert y - lo == Pitch * ((y - lo) / Pitch);
      }
    }
  }
}
