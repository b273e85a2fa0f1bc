/**
 The editor-facing vocabulary of the GUI module: the event records the
 adapter hands to the editor, the rectangles, colours and font metrics of
 the drawing interface, and the module's fixed layout constants.

 Only sdl.c is modelled; the header gui.h that declares these types is not
 part of this model, so the numeric values of the special key codes below
 are an assumption of the model (see README).
 */
module Gui {

  datatype Option<+T> = None | Some(value: T)

  /** The zero or one values an option holds, as a sequence. */
  function AsSeq<T>(o: Option<T>): seq<T>
  {
    if o.Some? then [o.value] else []
  }

  /** The values a sequence of options holds, in order. */
  function Somes<T>(s: seq<Option<T>>): seq<T>
  {
    if s == [] then [] else Somes(s[..|s| - 1]) + AsSeq(s[|s| - 1])
  }

  /** Extending a sequence of options by one extends its values by that option's. */
  lemma SomesSnoc<T>(s: seq<Option<T>>, i: nat)
    requires i < |s|
    ensures Somes(s[..i + 1]) == Somes(s[..i]) + AsSeq(s[i])
    ensures |Somes(s[..i + 1])| <= |Somes(s[..i])| + 1
  {
    assert s[..i + 1][..i] == s[..i];
  }

  /** A Unicode code point, or one of the special key codes below. */
  type Rune = int

  /** Layout constants of sdl.c. */
  const HMargin: int := 16
  const VMargin: int := 2
  const Border: int := 2
  /** Default window dimensions; also substituted for a zero-sized resize. */
  const Width: int := 640
  const Height: int := 480

  /** Special key codes (assumed values: a contiguous block, F1..F12 consecutive). */
  const GKEsc: Rune := 0xE000
  const GKF1: Rune := 0xE001
  const GKF12: Rune := 0xE00C
  const GKUp: Rune := 0xE00D
  const GKDown: Rune := 0xE00E
  const GKLeft: Rune := 0xE00F
  const GKRight: Rune := 0xE010
  const GKBackspace: Rune := 0xE011
  const GKPageUp: Rune := 0xE012
  const GKPageDown: Rune := 0xE013

  datatype GButton = GBLeft | GBRight | GBMiddle | GBWheelUp | GBWheelDown

  /** One whole event record, as written to and read from the channel. */
  datatype GEvent =
    | GKey(key: Rune)
    | GResize(width: int, height: int)
    | GMouseDown(button: GButton, x: int, y: int)
    | GMouseSelect(button: GButton, x: int, y: int)

  datatype GRect = GRect(x: int, y: int, w: int, h: int)

  /** A colour; a non-zero `x` asks for a stroked rather than a filled rectangle. */
  datatype GColor = GColor(red: int, green: int, blue: int, x: int)

  /** The colour the cursor is drawn in; its value is declared in gui.h, which is not part of this model. */
  const GXBlack: GColor

  datatype GFont = GFont(ascent: int, descent: int, height: int)
}
