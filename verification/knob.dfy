/**
 * The rotary knob (RetroKnob, src/components/emotion-mixer-retro-react-fixed.tsx:58-124):
 * dragging the cursor vertically turns a bounded integer value, and every
 * change is pushed out through `onChange`.
 */
module Knob {
  import opened Wrappers

  /** `Math.round`: the nearest integer, halves rounded up. */
  function Round(x: real): (n: int)
    ensures n as real - 0.5 <= x < n as real + 0.5
  {
    (x + 0.5).Floor
  }

  /** `Math.max`. */
  function Max(a: real, b: real): real {
    if a >= b then a else b
  }

  /** `Math.min`. */
  function Min(a: real, b: real): real {
    if a <= b then a else b
  }

  /** `Math.min(hi, Math.max(lo, x))`: saturates at the bounds instead of wrapping. */
  function Clamp(x: real, lo: int, hi: int): (y: real)
    ensures lo <= hi ==> lo as real <= y <= hi as real
    ensures lo as real <= x <= hi as real ==> y == x
    ensures lo <= hi && x < lo as real ==> y == lo as real
    ensures hi as real < x ==> y == hi as real
    ensures hi < lo ==> y == hi as real
  {
    Min(hi as real, Max(lo as real, x))
  }

  /**
   * How far a drag has turned the value: the cursor's rise since the anchor,
   * scaled by the sensitivity, taken as a percentage of the range (lines 87-89).
   */
  function DragOffset(startY: real, y: real, sensitivity: real, lo: int, hi: int): real {
    var deltaY := (startY - y) * sensitivity;
    var range := hi - lo;
    (deltaY / 100.0) * range as real
  }

  /** The value a drag reaches: the anchored value plus the offset, clamped, rounded (line 90). */
  function DragValue(startValue: int, startY: real, y: real, sensitivity: real, lo: int, hi: int): (v: int)
    ensures lo <= hi ==> lo <= v <= hi
    ensures hi < lo ==> v == hi
  {
    Round(Clamp(startValue as real + DragOffset(startY, y, sensitivity, lo, hi), lo, hi))
  }

  lemma RoundInteger(n: int)
    ensures Round(n as real) == n
  {
  }

  lemma RoundMonotone(x: real, x': real)
    requires x <= x'
    ensures Round(x) <= Round(x')
  {
  }

  /** With the cursor back at the anchor, an in-range anchored value is reached again. */
  lemma DragValueAtAnchor(startValue: int, startY: real, sensitivity: real, lo: int, hi: int)
    requires lo <= startValue <= hi
    ensures DragValue(startValue, startY, startY, sensitivity, lo, hi) == startValue
  {
    RoundInteger(startValue);
  }

  lemma ScaleMonotone(a: real, b: real, c: real)
    requires a <= b && 0.0 <= c
    ensures a * c <= b * c
  {
  }

  lemma ClampMonotone(x: real, x': real, lo: int, hi: int)
    requires x <= x'
    ensures Clamp(x, lo, hi) <= Clamp(x', lo, hi)
  {
  }

  /** The offset grows as the cursor rises, for a non-negative sensitivity. */
  lemma DragOffsetMonotone(startY: real, y: real, y': real, sensitivity: real, lo: int, hi: int)
    requires y' <= y && 0.0 <= sensitivity && lo <= hi
    ensures DragOffset(startY, y, sensitivity, lo, hi) <= DragOffset(startY, y', sensitivity, lo, hi)
  {
    var d := (startY - y) * sensitivity;
    var d' := (startY - y') * sensitivity;
    ScaleMonotone(startY - y, startY - y', sensitivity);
    ScaleMonotone(d / 100.0, d' / 100.0, (hi - lo) as real);
  }

  /**
   * Moving the cursor higher (a smaller y) never lowers the value, for a
   * non-negative sensitivity and ordered bounds.
   */
  lemma DragValueMonotone(startValue: int, startY: real, y: real, y': real, sensitivity: real, lo: int, hi: int)
    requires y' <= y && 0.0 <= sensitivity && lo <= hi
    ensures DragValue(startValue, startY, y, sensitivity, lo, hi)
            <= DragValue(startValue, startY, y', sensitivity, lo, hi)
  {
    DragOffsetMonotone(startY, y, y', sensitivity, lo, hi);
    var x := startValue as real + DragOffset(startY, y, sensitivity, lo, hi);
    var x' := startValue as real + DragOffset(startY, y', sensitivity, lo, hi);
    ClampMonotone(x, x', lo, hi);
    RoundMonotone(Clamp(x, lo, hi), Clamp(x', lo, hi));
  }

  /**
   * One knob instance: bounds and sensitivity as configured, the drag flag,
   * the drag anchor (cursor height and value when the drag began) and the
   * value it shows. The rotation angle is display only and not kept here.
   */
  class RetroKnob {
    const min: int
    const max: int
    const sensitivity: real
    var isDragging: bool
    var startY: real
    var startValue: int
    var localValue: int

    /** First render: state initialised from the external value (lines 71-74). */
    constructor (value: int, min: int, max: int, sensitivity: real)
      ensures this.min == min && this.max == max && this.sensitivity == sensitivity
      ensures !isDragging && startY == 0.0 && startValue == value && localValue == value
    {
      this.min, this.max, this.sensitivity := min, max, sensitivity;
      isDragging, startY, startValue, localValue := false, 0.0, value, value;
    }

    /** Mouse-down anchors the drag at the cursor height and the shown value (lines 120-124). */
    method MouseDown(y: real)
      modifies this
      ensures isDragging && startY == y && startValue == old(localValue)
      ensures localValue == old(localValue)
    {
      isDragging := true;
      startY := y;
      startValue := localValue;
    }

    /**
     * Mouse-move (lines 84-98): while dragging, compute the reached value and,
     * only if it differs from the shown one, show it and return it as the
     * `onChange` notification.
     */
    method MouseMove(y: real) returns (emitted: Option<int>)
      modifies this`localValue
      ensures emitted.Some? <==>
                isDragging && DragValue(startValue, startY, y, sensitivity, min, max) != old(localValue)
      ensures emitted.Some? ==>
                && emitted.value == DragValue(startValue, startY, y, sensitivity, min, max)
                && emitted.value != old(localValue)
                && localValue == emitted.value
                && (min <= max ==> min <= emitted.value <= max)
      ensures emitted.None? ==> localValue == old(localValue)
    {
      emitted := None;
      if isDragging {
        var deltaValue := DragOffset(startY, y, sensitivity, min, max);
        var newValue := Round(Clamp(startValue as real + deltaValue, min, max));
        if newValue != localValue {
          localValue := newValue;
          emitted := Some(newValue);
        }
      }
    }

    /** Mouse-up ends the drag and changes no value (lines 100-102). */
    method MouseUp()
      modifies this`isDragging
      ensures !isDragging
    {
      isDragging := false;
    }

    /** A new external value replaces the shown one (lines 115-118). */
    method Resync(value: int)
      modifies this`localValue
      ensures localValue == value
    {
      localValue := value;
    }
  }
}
