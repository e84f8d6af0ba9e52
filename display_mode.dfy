/**
  The panel's four display modes (the `DISPLAY_MODE` enum of module/logic.js)
  and the "filter" button's successor function.
 */
module DisplayMode {

  const ShowAll: int := 0
  const ShowVisible: int := 1
  const ShowHidden: int := 2
  const ShowMore: int := 3

  /** Number of keys of the enum; the cycle wraps after the last one. */
  const ModeCount: int := 4

  predicate IsMode(m: int) {
    0 <= m < ModeCount
  }

  /** One press of the filter button: increment, then wrap to 0 past the last mode.
      On every mode this is increment modulo the number of modes. */
  function NextMode(m: int): (r: int)
    ensures IsMode(m) ==> IsMode(r) && r == (m + 1) % ModeCount
  {
    if m + 1 > ModeCount - 1 then ShowAll else m + 1
  }

  /** The mode reached after `n` presses, starting from `m`. */
  function Presses(m: int, n: nat): int
  {
    if n == 0 then m else NextMode(Presses(m, n - 1))
  }

  /** After `n` presses the mode is the start advanced by `n`, modulo the number of modes. */
  lemma {:induction false} PressesAdvance(m: int, n: nat)
    requires IsMode(m)
    ensures IsMode(Presses(m, n))
    ensures Presses(m, n) == (m + n) % ModeCount
  {
    if n > 0 {
      PressesAdvance(m, n - 1);
      var p := Presses(m, n - 1);
      assert p == (m + n - 1) % ModeCount;
      assert (p + 1) % ModeCount == (m + n) % ModeCount;
    }
  }

  /** Four presses, or any multiple of four, return to the starting mode. */
  lemma FullCycleReturns(m: int, k: nat)
    requires IsMode(m)
    ensures Presses(m, ModeCount * k) == m
    ensures Presses(m, ModeCount) == m
  {
    PressesAdvance(m, ModeCount * k);
    PressesAdvance(m, ModeCount);
    assert (m + ModeCount * k) % ModeCount == m;
  }

  /** The successor of the last mode is the first one. */
  lemma LastWrapsToFirst()
    ensures NextMode(ShowMore) == ShowAll
    ensures NextMode(ShowAll) == ShowVisible && NextMode(ShowVisible) == ShowHidden
    ensures NextMode(ShowHidden) == ShowMore
  {
  }
}
