/**
 * Shared value types of the toolkit: sizes, rects with the "none" marker,
 * two-channel colours with the "none" (inherit) palette entry, and the
 * C integer operations the layout code relies on.
 */
module Base {

  datatype Option<T> = None | Some(value: T)

  /** The NUL handle: a window, menu or parent reference that is not set. */
  const NULL: int := -1

  /** Palette entries; they are one more than the backend's colour numbers. */
  const COLOR_NONE: int := 0
  const COLOR_BLACK: int := 1
  const COLOR_WHITE: int := 16

  datatype Color = Color(fg: int, bg: int)

  /** A colour with no transparent channel does not inherit anything. */
  predicate IsOpaque(c: Color)
  {
    c.fg != COLOR_NONE && c.bg != COLOR_NONE
  }

  datatype Size = Size(w: int, h: int)

  /** A rect; `isNone` marks the "let the layout decide" rect. */
  datatype Rect = Rect(w: int, h: int, x: int, y: int, isNone: bool)

  const RECT_NONE: Rect := Rect(0, 0, 0, 0, true)

  /** A rect literal `{ .w = w, .h = h }`: position zero, not none. */
  function SizeRect(w: int, h: int): (r: Rect)
    ensures r.w == w && r.h == h && r.x == 0 && r.y == 0 && !r.isNone
  {
    Rect(w, h, 0, 0, false)
  }

  function Max(a: int, b: int): (m: int)
    ensures m >= a && m >= b && (m == a || m == b)
  {
    if a > b then a else b
  }

  function Min(a: int, b: int): (m: int)
    ensures m <= a && m <= b && (m == a || m == b)
  {
    if a > b then b else a
  }

  /**
   * C division on int: the quotient is truncated toward zero, so that
   * the remainder takes the sign of the dividend.
   */
  function CDiv(a: int, b: int): (q: int)
    requires b != 0
    ensures a >= 0 && b > 0 ==> q == a / b
    ensures b > 0 ==> (a >= 0 ==> 0 <= a - q * b < b) && (a < 0 ==> -b < a - q * b <= 0)
  {
    if a >= 0 then
      if b > 0 then a / b else -(a / -b)
    else
      if b > 0 then -((-a) / b) else (-a) / (-b)
  }

  /**
   * `(int) (v + k / 2.f * s)` for an int v and k in {0, 1, 2}: the sum is
   * a multiple of one half, and the cast truncates it toward zero. This is
   * the single-precision result only while `|2v + k * s| < 2^24`.
   */
  function HalfShift(v: int, k: int, s: int): (r: int)
    requires 0 <= k <= 2
    ensures k == 0 ==> r == v
    ensures k == 2 ==> r == v + s
    ensures k == 1 && v >= 0 && s >= 0 ==> r == v + s / 2
  {
    CDiv(2 * v + k * s, 2)
  }

  /** Number of line feeds in a string. */
  function NewlineCount(s: seq<char>): (n: nat)
    ensures n <= |s|
  {
    if s == [] then 0 else (if s[0] == '\n' then 1 else 0) + NewlineCount(s[1..])
  }
}
