/**
 * Window input events and `Event::translate`, which moves an event's screen
 * coordinates by an offset.
 *
 * Coordinates are pairs of exact reals: the model keeps the structure of the
 * translation (which variants move, which fields are kept, the order of the
 * touch list) and leaves floating-point rounding aside.
 */
module Events {

  /** A 2-D vector, `vec2<f64>` with exact arithmetic. */
  datatype Vec2 = Vec2(x: real, y: real)
  {
    /** Component-wise `+`, as `+=` on a `vec2` does. */
    function Plus(d: Vec2): Vec2 {
      Vec2(x + d.x, y + d.y)
    }

    function Neg(): Vec2 {
      Vec2(-x, -y)
    }
  }

  const Origin := Vec2(0.0, 0.0)

  datatype MouseButton = Left | Middle | Right

  /** One finger on a touch screen. */
  datatype TouchPoint = TouchPoint(position: Vec2)

  /** The keyboard keys an event can name. */
  datatype Key =
    | Num0 | Num1 | Num2 | Num3 | Num4 | Num5 | Num6 | Num7 | Num8 | Num9
    | A | B | C | D | E | F | G | H | I | J | K | L | M
    | N | O | P | Q | R | S | T | U | V | W | X | Y | Z
    | Escape | Space | Enter | Backspace | Tab
    | LShift | RShift | LCtrl | RCtrl | LAlt | RAlt
    | LBracket | RBracket
    | Left | Right | Up | Down
    | PageUp | PageDown | End | Home | Insert | Delete
    | Comma | Period | Apostrophe | Semicolon | Slash | Grave | Minus | Equals
    | F1 | F2 | F3 | F4 | F5 | F6 | F7 | F8 | F9 | F10 | F11 | F12
    | Unknown

  /**
   * A window event. The scroll amount of `Wheel` is called `delta` in the
   * program; here it is `wheelDelta`, because a field name shared by several
   * variants must have one type and `MouseMove`'s `delta` is a vector.
   */
  datatype Event =
    | MouseDown(position: Vec2, button: MouseButton)
    | MouseUp(position: Vec2, button: MouseButton)
    | MouseMove(position: Vec2, delta: Vec2)
    | Wheel(wheelDelta: real)
    | TouchStart(touches: seq<TouchPoint>)
    | TouchMove(touches: seq<TouchPoint>)
    | TouchEnd(touches: seq<TouchPoint>)
    | KeyDown(key: Key)
    | KeyUp(key: Key)

  /** The variants whose pointer position `translate` moves. */
  predicate IsMouse(e: Event) {
    e.MouseDown? || e.MouseUp? || e.MouseMove?
  }

  /** The variants whose touches `translate` moves; `TouchEnd` is not one of them. */
  predicate MovesTouches(e: Event) {
    e.TouchStart? || e.TouchMove?
  }

  /** Both events are the same variant. */
  predicate SameVariant(a: Event, b: Event) {
    && a.MouseDown? == b.MouseDown?
    && a.MouseUp? == b.MouseUp?
    && a.MouseMove? == b.MouseMove?
    && a.Wheel? == b.Wheel?
    && a.TouchStart? == b.TouchStart?
    && a.TouchMove? == b.TouchMove?
    && a.TouchEnd? == b.TouchEnd?
    && a.KeyDown? == b.KeyDown?
    && a.KeyUp? == b.KeyUp?
  }

  /** Every touch moved by `d`, in the same order. */
  function ShiftTouches(ts: seq<TouchPoint>, d: Vec2): (r: seq<TouchPoint>)
    ensures |r| == |ts|
    ensures forall i :: 0 <= i < |ts| ==> r[i].position == ts[i].position.Plus(d)
  {
    seq(|ts|, i requires 0 <= i < |ts| => TouchPoint(ts[i].position.Plus(d)))
  }

  /**
   * The value `translate` returns: the same variant, with the pointer position
   * or the position of every started or moved touch shifted by `d`, and every
   * other field as it was.
   */
  function Translated(e: Event, d: Vec2): (r: Event)
    ensures SameVariant(r, e)
    ensures IsMouse(e) ==> r.position == e.position.Plus(d)
    ensures e.MouseDown? || e.MouseUp? ==> r.button == e.button
    ensures e.MouseMove? ==> r.delta == e.delta
    ensures MovesTouches(e) ==> |r.touches| == |e.touches|
    ensures MovesTouches(e) ==> forall i :: 0 <= i < |e.touches| ==> r.touches[i].position == e.touches[i].position.Plus(d)
    ensures !IsMouse(e) && !MovesTouches(e) ==> r == e
  {
    if IsMouse(e) then e.(position := e.position.Plus(d))
    else if MovesTouches(e) then e.(touches := ShiftTouches(e.touches, d))
    else e
  }

  /**
   * `Event::translate`: clone the event, add `delta` to the position of a
   * mouse event, or to every touch of a `TouchStart` or `TouchMove` in turn,
   * and return the clone. The event passed in is a value and stays as it was.
   */
  method Translate(e: Event, delta: Vec2) returns (result: Event)
    ensures result == Translated(e, delta)
  {
    result := e;
    if IsMouse(result) {
      result := result.(position := result.position.Plus(delta));
    } else if MovesTouches(result) {
      var touches := result.touches;
      var i := 0;
      while i < |touches|
        invariant 0 <= i <= |touches| == |e.touches|
        invariant forall k :: 0 <= k < i ==> touches[k] == TouchPoint(e.touches[k].position.Plus(delta))
        invariant forall k :: i <= k < |touches| ==> touches[k] == e.touches[k]
      {
        touches := touches[i := touches[i].(position := touches[i].position.Plus(delta))];
        i := i + 1;
      }
      result := result.(touches := touches);
    }
  }

  /** Translating by the zero vector changes nothing. */
  lemma TranslateOrigin(e: Event)
    ensures Translated(e, Origin) == e
  {
    if MovesTouches(e) {
      assert ShiftTouches(e.touches, Origin) == e.touches;
    }
  }

  /** Two translations in a row are one translation by the sum of the offsets. */
  lemma TranslateTwice(e: Event, a: Vec2, b: Vec2)
    ensures Translated(Translated(e, a), b) == Translated(e, a.Plus(b))
  {
    if MovesTouches(e) {
      assert ShiftTouches(ShiftTouches(e.touches, a), b) == ShiftTouches(e.touches, a.Plus(b));
    }
  }

  /** Translating back by the opposite offset restores the event. */
  lemma TranslateBack(e: Event, d: Vec2)
    ensures Translated(Translated(e, d), d.Neg()) == e
  {
    TranslateTwice(e, d, d.Neg());
    TranslateOrigin(e);
  }
}
