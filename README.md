# SDL adapter of the `edit` text editor, modelled in Dafny

`sdl.c` is the SDL2 back end of the editor's GUI interface. An input thread
waits for native SDL events and translates them into editor event records
(`GEvent`). It keeps two flags while it does so: `ctrl` (a Ctrl key is held)
and `move` (a left-button drag is in progress). It writes each record into a
non-blocking pipe, the event channel. The editor's main loop reads records
back through `GSdlNextEvent`, which substitutes the default window size for a
zero-sized resize. The drawing entry points clip rectangle requests against a
clip rectangle and hand them to the SDL renderer. They also draw the cursor
and text, report the font metrics, and lay out the gutter decoration.

The model has six modules:

- `Gui` (gui.dfy): the editor-facing records, rectangles, colours, font
  metrics and layout constants.
- `Sdl` (sdl.dfy): the native side.
  - SDL events, with the real SDL2 key symbol values.
  - Font metrics, with an opaque text-measuring function.
  - A `Renderer` class that records the draw commands it is given, in order.
- `EventChan` (event_chan.dfy): the channel.
  - A class holding a bounded FIFO of whole records, whose capacity is the
    pipe buffer divided by the record size.
  - Its single transfer operation, and the get and put wrappers around it.
- `Input` (input.dfy): the translation rules of `HandleInput` as pure
  functions over the two flags, plus the lemmas about them and about runs of
  events.
- `Draw` (draw.dfy): the integer arithmetic of the drawing calls (clipping,
  font metrics, the 16-bit text conversion, the decoration layout).
- `SdlGui` (sdl_gui.dfy): the context object.
  - Its imperative `HandleInput`, which updates the context's flags and puts
    into its channel.
  - The consumer's `NextEvent` and the drawing methods, which append to the
    renderer's recorded commands.
  - Two whole sessions: producer first and then consumer, or the two
    interleaved.

The model stands in for the process-wide `globalContext` with an explicit
`GSdlContext` object. Threads become steps on that one object, made in an
order the caller chooses.

Where one might expect more of this revision of `sdl.c` than it does, such
as drawing staying inside the clip, the model follows the code:

- **Clipping.** `GSdlDrawRect` cuts back only the right and bottom edges of a
  request (sdl.c:456-459). The left and top edges are never clamped, so a
  request starting left of or above the clip still reaches outside it, and a
  request starting past the right or bottom edge gets a negative width or
  height. `Draw.Clip` states exactly this. It does not claim that the result
  lies inside the clip.
- **Window events.** Every `SDL_WINDOWEVENT` becomes a `GResize` carrying the
  event's `data1`/`data2` (sdl.c:242-248), whatever the subtype is. Deciding
  when a zero-sized record means "use the default size" is left to
  `GSdlNextEvent`.

## Model

| member | source | states |
|---|---|---|
| EventChan.GEventChan.constructor | sdl.c:48-67 | A new channel is empty and has the given capacity. |
| EventChan.GEventChan.Op | sdl.c:82-100 | One transfer returns 0 or -1. A write succeeds exactly when the queue is not full, and then appends the record. A read succeeds exactly when the queue is not empty, and then removes and returns the oldest record. A failed transfer changes neither the queue nor the buffer. |
| EventChan.GEventChan.Get | sdl.c:112-115 | Reads the oldest record into the buffer. On an empty channel it fails with -1 and leaves the buffer and the queue unchanged. |
| EventChan.GEventChan.Put | sdl.c:117-120 | Appends the record when there is room. On a full channel it fails with -1 and changes nothing. |
| EventChan.Offered | sdl.c:238 | A put whose result is ignored drops the record when the channel is full. The queue never exceeds the capacity. |
| EventChan.Filled | sdl.c:416-421 | The queue after a run of ignored-result puts with no reader: the old queue, followed by as many of the new records, in order, as fit. Its length is the smaller of the capacity and the number of records. |
| EventChan.FilledOffered | sdl.c:416-421 | Repeated dropping puts with no reader keep the first `capacity` records of everything put, in order. |
| EventChan.PutThenGet | sdl.c:82-120 | N puts on a fresh channel, then N gets: the first `capacity` puts and gets succeed and the rest fail. The gets return the records in put order, each once. A get on the drained channel fails, and a put after it works again. |
| EventChan.Interleave | sdl.c:82-120 | For any interleaving of puts and gets on a fresh channel, each step's return code is 0 or -1. A put succeeds exactly when fewer than `capacity` records are pending, and a get exactly when one is. The records accepted are exactly the successful puts' records, in schedule order. What is read is a prefix of them, and the pending rest never exceeds the capacity. When no more than `capacity` records are offered, all of them are accepted. |
| EventChan.KeptPutsBound | sdl.c:82-120 | Under return codes the channel gives, the kept records never outnumber the schedule's puts. Between none and `capacity` records are pending, and when the schedule puts at most `capacity` records, every one is kept. |
| Input.ButtonCode | sdl.c:258-276 | The native buttons map to the editor's buttons; only the left button maps to `GBLeft`. |
| Input.FixedKey | sdl.c:305-381 | The fixed key table. F1..F12 map to `GKF1` plus the key's offset from F1. The Ctrl keys and the letter keys are not in the table. |
| Input.ChordCode | sdl.c:395-402 | A letter key held with Ctrl gives 1 + its offset from `a`, a control code in 1..26. |
| Input.Translate | sdl.c:214-407 | Only a Ctrl key event changes `ctrl`, and it produces no record. Only a left-button event changes `move`. A selection record comes only from motion during a drag and names the left button. Key-up, button-up and unhandled events produce no record. |
| Input.CtrlChord | sdl.c:294-402 | Ctrl down sets `ctrl` and Ctrl up clears it, without producing a record. A letter key gives its control code while `ctrl` is set and nothing otherwise. Any other key-up, and any unmapped non-letter key-down, has no effect. |
| Input.DragTracking | sdl.c:250-292 | A button press always produces a press record at the mouse position; a left press starts a drag. A left release ends the drag and produces nothing. Motion produces a left-button selection record exactly while a drag is in progress, and never changes a flag. |
| Input.FixedKeyMapping | sdl.c:305-381 | Each fixed key gives one key record with its code (a return key gives `'\n'`, a tab gives `'\t'`), whatever the flags are, and changes no flag. |
| Input.FunctionKeyOrder | sdl.c:311-326 | F1..F12 give twelve consecutive codes from `GKF1`, in key order. |
| Input.TextAndWindow | sdl.c:228-248 | A non-empty text fragment gives one key record carrying its decoded rune, and an empty fragment gives none. A window event gives one resize record with the event's data. Neither changes a flag. |
| Input.TraceAtMostOnePerEvent | sdl.c:214-407 | A run of events produces at most one record per event. |
| Input.TranslateTrace | sdl.c:416-421 | The records the input thread's loop produces for a run of events, in event order. A run of key releases, button releases and unhandled events produces none. |
| Input.FinalState | sdl.c:416-421 | The flags after a run of events. A run without a Ctrl key event leaves `ctrl` as it was, and one without a left-button press or release leaves `move` as it was. |
| Input.TracePrefixStep | sdl.c:416-421 | Handling event `i` of a run extends the records of the first `i` events by that event's record, and never past the records of the whole run. |
| Input.TraceAppend | sdl.c:416-421 | The records of a run are the records of its first part followed by those of the rest, which is translated from the flags the first part left. Records appear in the order of the events that caused them. |
| Input.TraceSnoc | sdl.c:416-421 | Handling one more event appends that event's record, if any, at the end of the run's records. |
| Input.TextTrace | sdl.c:228-240 | A run of non-empty text fragments gives exactly one key record per fragment, in order, and leaves the flags unchanged. |
| Draw.Clip | sdl.c:456-467 | The clipped rectangle is translated by the clip origin. Its right and bottom edges never pass the clip's, and it is never larger than the request. A request that fits is unchanged, and a truncated side ends exactly at the clip edge. |
| Draw.ClipIdempotent | sdl.c:456-459 | Clipping an already clipped request again changes nothing. |
| Draw.ClipCorner | sdl.c:456-467 | In a 100x100 clip, a 50x50 request at (90, 90) becomes a 10x10 rectangle at (90, 90). |
| Draw.RenderColor | sdl.c:469-470 | The draw colour uses the colour's components and is fully opaque. |
| Draw.RectCommand | sdl.c:469-474 | A request records the clipped rectangle in the opaque colour. It is an outline exactly when the colour's `x` is non-zero, and a fill otherwise. |
| Draw.GetFont | sdl.c:490-498 | Ascent and height are passed through. The descent is reported as a positive distance, one more than the font library's negated descent. |
| Draw.ShortRune | sdl.c:511-512 | The uint16_t cast keeps BMP code points and wraps anything else modulo 2^16. |
| Draw.UpToNul | sdl.c:514-516 | The string the font library reads is the longest zero-free prefix of the buffer. |
| Draw.UpToNulTerminated | sdl.c:514-516 | Appending the terminator does not change that string. |
| Draw.ActionRect | sdl.c:433-434 | The action rectangle is at the origin, `HMargin - 3` wide and one font height plus `VMargin` tall. |
| Draw.DecorateLayout | sdl.c:625-629 | The decoration requests, in drawing order. First, a 1-pixel vertical separator spanning the clip height. Second, a 1-pixel horizontal separator one font height plus `VMargin` down, ending at the vertical one. Third, when `dirty` is set, a box `HMargin - 7` pixels wide, 2 pixels in from the left and top, that ends 2 pixels short of the vertical separator and 2 pixels above the horizontal one. |
| Draw.DecorateFramesActionRect | sdl.c:625-629 | The vertical separator runs the full clip height along the action rectangle's right edge. The horizontal separator spans its width along its bottom edge. The dirty box lies inside it, 2 pixels in from its left and top, and ends 2 pixels short of both separators, which makes it `HMargin - 7` wide. |
| SdlGui.WithDefaultSize | sdl.c:594-597 | A resize with a zero width or height becomes 640x480; every other record is unchanged. Afterwards, no resize has a zero dimension. |
| SdlGui.WithDefaultSizeIdempotent | sdl.c:594-597 | Substituting the default size a second time changes nothing. |
| SdlGui.ShortText | sdl.c:502-514 | Builds a new buffer holding the runes cast to 16 bits, followed by a zero. |
| SdlGui.GSdlContext.constructor | sdl.c:142-186 | A zeroed context with its dimensions, an empty channel and both flags clear. |
| SdlGui.GSdlContext.HandleInput | sdl.c:214-407 | A poll that times out changes nothing. Otherwise the flags become the translation's, and its record, if any, is put into the channel, or dropped when the channel is full. |
| SdlGui.GSdlContext.Pump | sdl.c:409-425 | Handling a run of events leaves the run's final flags. The channel gains the run's records, in event order, up to its capacity. |
| SdlGui.GSdlContext.NextEvent | sdl.c:585-602 | Returns 1 exactly when a record was pending, and hands over the oldest one with the default size substituted. Otherwise it returns 0 and changes nothing. |
| SdlGui.GSdlContext.DrawRect | sdl.c:449-475 | Records exactly one command: the clipped request in the opaque colour, as an outline or a fill. |
| SdlGui.GSdlContext.DrawCursor | sdl.c:477-488 | Records one rectangle request in the cursor colour `GXBlack`, one font height tall: 2 pixels wide in insert mode, otherwise `w` wide. |
| SdlGui.GSdlContext.TextWidth | sdl.c:500-523 | The width is what the font measures for the runes cast to 16 bits, up to the first zero. |
| SdlGui.GSdlContext.DrawText | sdl.c:525-583 | Records the converted text, one ascent above the translated baseline, in the opaque colour, exactly when its measured width is non-zero. Otherwise it records nothing. |
| SdlGui.GSdlContext.Decorate | sdl.c:620-630 | Records the two separators and, when `dirty` is set, the dirty box, in that order. |
| SdlGui.Init | sdl.c:427-437 | Creates the context with the default dimensions and an empty channel. It returns the channel's readable end and sets the action rectangle. |
| SdlGui.RunSession | sdl.c:585-602 | When the input thread handles a run before the editor polls, the editor is handed the records that fit in the channel, in event order, with the default size substituted. When every record fits, it is handed all of them. The final poll finds nothing and returns 0. |
| SdlGui.RunInterleaved | sdl.c:409-425 | When the input thread's steps and the editor's polls interleave and the channel can hold every record, the editor receives a prefix of the run's records, in order. The rest is still pending: nothing is lost or repeated. |

## Left out

- The input thread, `SDL_CompilerBarrier` and `needExit` (sdl.c:195-197, 409-425): no concurrency is modelled. The thread loop becomes `Pump` and interleavings become `RunInterleaved`.
- `SDL_QUIT` calling `exit(0)` (sdl.c:224-226): the model has no process exit; such an event is one of the unhandled `OtherEvent`s.
- SDL and font-library initialisation, window and renderer creation, teardown (`GSdlContextKill`, `GSdlDeinit`), and every `die` path (sdl.c:142-212, 439-447): these are foreign calls with no result the model could use.
- `GEventChanKill` (sdl.c:69-78): closing descriptors and freeing memory have no counterpart in Dafny.
- GEventChan.constructor: the `calloc` and `pipe` failure paths, and the `fcntl` calls (sdl.c:50-63), are not modelled; creation always succeeds.
- GEventChan.Op: the NULL guards (sdl.c:89-93) are not modelled, because Dafny references are never null. Short reads and writes cannot happen, since records are whole values.
- GSdlContext.HandleInput: the 100 ms `SDL_WaitEventTimeout` is a parameter, and `None` stands for a timeout. Mouse buttons beyond X2, which leave the record's button unset in the code, are not modelled.
- Input.WellFormed: the text-length `assert` (sdl.c:231) becomes a precondition, not an error path. So does the fact that a fragment is the part of a C string before its NUL (sdl.c:229), so a model fragment holds no zero byte.
- `utf8_decode_rune` is not part of this model: it is an opaque `Decoder` function parameter.
- gui.h is not part of this model. The values of the `GK*` key codes are assumed: a contiguous block from 0xE000 with F1..F12 consecutive. `GXBlack` is left unspecified, so the cursor's colour and whether it is drawn as an outline or a fill are not stated; like every drawn colour, it is rendered opaque.
- GSdlContext.DrawText: the surface, the texture and the blit are not modelled. The recorded command carries the position, the text and the colour, but not the surface's width and height.
- GSdlContext.TextWidth: the font library's measurement is an opaque function. The `assert` on its return code (sdl.c:517) and the `calloc` failure path are not modelled.
- `GSdlSync` (sdl.c:604-612) only presents the renderer, and `GSdlSetPointer` (sdl.c:614-618) does nothing, so neither has behaviour to state.
- Draw.Clip: C `int` overflow in `x + w` and `y + h` is not modelled; the model uses unbounded integers throughout, and the SDL and editor coordinates are 32-bit in the code.
- The pipe's byte-level behaviour (the buffer size, partial records) is not modelled: the channel holds whole records and `capacity` is a parameter.
- SdlGui.RunInterleaved: its delivery-order promise is stated only when the channel can hold every record the run produces. When an interleaving overflows it, which records are dropped depends on the poll schedule. That case is stated step by step for the bare channel by `EventChan.Interleave`, not for whole sessions.
