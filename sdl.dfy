/**
 The parts of SDL2 and SDL_ttf that the adapter consumes, reduced to values:
 the native events it translates, the key symbols it tests, the font
 library's answers, and a renderer that records the drawing commands it is
 given instead of producing pixels.
 */
module Sdl {
  import opened Gui

  type byte = b: int | 0 <= b < 256

  /** Decodes one UTF-8 text-input fragment to a single rune (the unicode.h collaborator). */
  type Decoder = seq<byte> -> Rune

  /** The mouse buttons SDL reports and the adapter maps. */
  datatype SdlButton = SdlLeft | SdlMiddle | SdlRight | SdlX1 | SdlX2

  /**
   The native events the input thread receives. `TextInput` carries the
   bytes of the fragment before its terminating NUL. `OtherEvent` stands for
   every event type the translation switch does not handle.
   */
  datatype NativeEvent =
    | TextInput(text: seq<byte>)
    | WindowEvent(data1: int, data2: int)
    | ButtonUp(button: SdlButton)
    | ButtonDown(button: SdlButton, x: int, y: int)
    | Motion(x: int, y: int)
    | KeyUp(sym: int)
    | KeyDown(sym: int)
    | OtherEvent

  /** SDL2 key symbols: printable keys are their character, the others are scancode | 1<<30. */
  const SDLK_BACKSPACE: int := 8
  const SDLK_TAB: int := 9
  const SDLK_RETURN: int := 13
  const SDLK_ESCAPE: int := 27
  const SDLK_a: int := 97
  const SDLK_z: int := 122
  const SDLK_F1: int := 0x4000_003A
  const SDLK_F12: int := 0x4000_0045
  const SDLK_PAGEUP: int := 0x4000_004B
  const SDLK_PAGEDOWN: int := 0x4000_004E
  const SDLK_RIGHT: int := 0x4000_004F
  const SDLK_LEFT: int := 0x4000_0050
  const SDLK_DOWN: int := 0x4000_0051
  const SDLK_UP: int := 0x4000_0052
  const SDLK_LCTRL: int := 0x4000_00E0
  const SDLK_RCTRL: int := 0x4000_00E4

  /**
   What the font library reports about the loaded font: its metrics, and the
   width `measure` gives a NUL-free string of 16-bit code units.
   */
  datatype TtfFont = TtfFont(ascent: int, descent: int, height: int, measure: seq<int> -> int)

  datatype SdlRect = SdlRect(x: int, y: int, w: int, h: int)

  datatype SdlColor = SdlColor(r: int, g: int, b: int, a: int)

  /** One recorded rendering call. */
  datatype DrawCmd =
    | RectCmd(rect: SdlRect, color: SdlColor, stroke: bool)
    | TextCmd(x: int, y: int, text: seq<int>, color: SdlColor)

  /** The window's renderer, as the list of commands issued to it so far. */
  class Renderer {
    var commands: seq<DrawCmd>

    constructor ()
      ensures commands == []
    {
      commands := [];
    }

    method Render(cmd: DrawCmd)
      modifies this
      ensures commands == old(commands) + [cmd]
    {
      commands := commands + [cmd];
    }
  }
}
