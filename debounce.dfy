/**
 * The scan debouncer: the last barcode taken as a new event and the time it
 * was taken. A read is a new event when its barcode differs from the stored
 * one or when more than the cooldown has passed since the stored time.
 */
module Debounce {
  import opened Wrappers

  /** `scan_cooldown`, in the clock's units (seconds). */
  const Cooldown: real := 4.0

  /** `scanned_barcode_str` and `last_scanned_time`. */
  datatype DebounceState = DebounceState(last: Option<string>, stamp: real)

  /** The state at session start: no barcode, time 0. */
  const Initial: DebounceState := DebounceState(None, 0.0)

  /** The condition guarding a decision: a different barcode, or the cooldown strictly exceeded. */
  predicate IsNewEvent(st: DebounceState, barcode: string, now: real) {
    Some(barcode) != st.last || now - st.stamp > Cooldown
  }

  /** The state after a new event: the barcode and the time it was taken. */
  function Record(barcode: string, now: real): DebounceState {
    DebounceState(Some(barcode), now)
  }

  /** The state after a decision: the barcode forgotten, the time kept. */
  function Reset(st: DebounceState): DebounceState {
    st.(last := None)
  }

  /**
   * After a new event for `barcode` at `t1`, a read at `t2` is a new event
   * exactly when it is another barcode or more than the cooldown later; at
   * exactly the cooldown the same barcode is still suppressed.
   */
  lemma AfterRecord(barcode: string, t1: real, other: string, t2: real)
    ensures IsNewEvent(Record(barcode, t1), other, t2) <==> other != barcode || t2 - t1 > Cooldown
    ensures !IsNewEvent(Record(barcode, t1), barcode, t1 + Cooldown)
  {
  }

  /** After a reset every read, of any barcode at any time, is a new event. */
  lemma AfterReset(st: DebounceState, barcode: string, now: real)
    ensures IsNewEvent(Reset(st), barcode, now)
    ensures Reset(st).stamp == st.stamp
  {
  }
}
