/**
 The integer arithmetic behind the drawing calls of sdl.c: clipping and
 translating a rectangle request, the font metrics the editor is given, the
 16-bit text the font library is handed, and the fixed layout of the gutter
 decoration and its action rectangle.
 */
module Draw {
  import opened Gui
  import opened Sdl

  /**
   The rectangle a clip-relative request is drawn as: the right and bottom
   edges are cut back to the clip's, the left and top ones are left as they
   are, and the result is moved by the clip's origin.
   */
  function Clip(clip: GRect, req: GRect): (r: SdlRect)
    ensures r.x == clip.x + req.x && r.y == clip.y + req.y
    ensures req.x + r.w <= clip.w && req.y + r.h <= clip.h
    ensures r.x + r.w <= clip.x + clip.w && r.y + r.h <= clip.y + clip.h
    ensures r.w <= req.w && r.h <= req.h
    ensures req.x + req.w <= clip.w ==> r.w == req.w
    ensures req.y + req.h <= clip.h ==> r.h == req.h
    ensures req.x + req.w > clip.w ==> req.x + r.w == clip.w
    ensures req.y + req.h > clip.h ==> req.y + r.h == clip.h
  {
    var w := if req.x + req.w > clip.w then clip.w - req.x else req.w;
    var h := if req.y + req.h > clip.h then clip.h - req.y else req.h;
    SdlRect(clip.x + req.x, clip.y + req.y, w, h)
  }

  /** Clipping a request already clipped changes nothing more. */
  lemma ClipIdempotent(clip: GRect, req: GRect)
    ensures var r := Clip(clip, req);
            Clip(clip, GRect(req.x, req.y, r.w, r.h)) == r
  {
  }

  /** A 50x50 request at (90, 90) in a 100x100 clip at the origin draws a 10x10 square at (90, 90). */
  lemma ClipCorner()
    ensures Clip(GRect(0, 0, 100, 100), GRect(90, 90, 50, 50)) == SdlRect(90, 90, 10, 10)
  {
  }

  /** The renderer's draw colour: the colour's components, fully opaque. */
  function RenderColor(c: GColor): (r: SdlColor)
    ensures r.r == c.red && r.g == c.green && r.b == c.blue
    ensures r.a == 255
  {
    SdlColor(c.red, c.green, c.blue, 255)
  }

  /** The command a rectangle request records: a stroked outline when `c.x` is set, a fill otherwise. */
  function RectCommand(clip: GRect, req: GRect, c: GColor): (r: DrawCmd)
    ensures r.RectCmd? && r.rect == Clip(clip, req) && r.color == RenderColor(c)
    ensures r.stroke <==> c.x != 0
  {
    RectCmd(Clip(clip, req), RenderColor(c), c.x != 0)
  }

  /** The commands a batch of rectangle requests records, in order. */
  function RectCommands(clip: GRect, reqs: seq<GRect>, c: GColor): (r: seq<DrawCmd>)
    ensures |r| == |reqs|
    ensures forall i :: 0 <= i < |reqs| ==> r[i] == RectCommand(clip, reqs[i], c)
  {
    seq(|reqs|, i requires 0 <= i < |reqs| => RectCommand(clip, reqs[i], c))
  }

  /**
   The metrics reported to the editor. The font library gives the descent as
   a non-positive offset from the baseline; the editor gets it as a distance
   below the baseline, one pixel larger.
   */
  function GetFont(font: TtfFont): (r: GFont)
    ensures r.ascent == font.ascent && r.height == font.height
    ensures r.descent - 1 == -font.descent
    ensures font.descent <= 0 ==> r.descent >= 1
    ensures r.ascent + r.descent == font.ascent - font.descent + 1
  {
    GFont(font.ascent, -font.descent + 1, font.height)
  }

  /** A rune cast to uint16_t: BMP code points are kept, anything else wraps modulo 2^16. */
  function ShortRune(r: Rune): (u: int)
    ensures 0 <= u < 0x1_0000
    ensures 0 <= r < 0x1_0000 ==> u == r
    ensures (u - r) % 0x1_0000 == 0
  {
    r % 0x1_0000
  }

  function ShortRunes(s: seq<Rune>): seq<int>
  {
    seq(|s|, i requires 0 <= i < |s| => ShortRune(s[i]))
  }

  /** The string a NUL-terminated buffer holds: everything before its first zero. */
  function UpToNul(s: seq<int>): (r: seq<int>)
    ensures r <= s
    ensures 0 !in r
    ensures |r| < |s| ==> s[|r|] == 0
  {
    if s == [] || s[0] == 0 then [] else [s[0]] + UpToNul(s[1..])
  }

  /** Appending the terminator does not change the string a buffer holds. */
  lemma {:induction false} UpToNulTerminated(s: seq<int>)
    ensures UpToNul(s + [0]) == UpToNul(s)
  {
    if s != [] && s[0] != 0 {
      assert (s + [0])[1..] == s[1..] + [0];
      UpToNulTerminated(s[1..]);
    }
  }

  /** The action rectangle set up at initialisation: the gutter box left of the separator, one line high. */
  function ActionRect(fontHeight: int): (r: GRect)
    ensures r.x == 0 && r.y == 0
    ensures r.w == HMargin - 3 && r.h == VMargin + fontHeight
  {
    GRect(0, 0, HMargin - 3, VMargin + fontHeight)
  }

  /** `inner` lies within `outer`. */
  predicate Within(inner: GRect, outer: GRect)
  {
    && outer.x <= inner.x && inner.x + inner.w <= outer.x + outer.w
    && outer.y <= inner.y && inner.y + inner.h <= outer.y + outer.h
  }

  /**
   The clip-relative requests of the gutter decoration: a vertical separator,
   a horizontal separator under the action box and, when the buffer is dirty,
   a box inside it.
   */
  function DecorateLayout(clip: GRect, dirty: int, fontHeight: int): (r: seq<GRect>)
    ensures |r| == if dirty != 0 then 3 else 2
    ensures r[0].w == 1 && r[0].y == 0 && r[0].h == clip.h
    ensures r[1].h == 1 && r[1].x == 0 && r[1].y == VMargin + fontHeight
    ensures r[1].x + r[1].w == r[0].x
    ensures dirty != 0 ==> r[2].x == r[2].y == 2 && r[2].y + r[2].h == r[1].y - 2
    ensures dirty != 0 ==> r[2].w == HMargin - 7 && r[2].x + r[2].w == r[0].x - 2
  {
    var boxh := VMargin + fontHeight;
    [GRect(HMargin - 3, 0, 1, clip.h), GRect(0, boxh, HMargin - 3, 1)]
    + (if dirty != 0 then [GRect(2, 2, HMargin - 7, boxh - 4)] else [])
  }

  /**
   The decoration frames the action rectangle: the vertical separator runs the
   whole clip height along its right edge, the horizontal one spans its width
   along its bottom edge, and the dirty box sits inside it, two pixels clear of
   its top and left and two pixels short of both separators.
   */
  lemma DecorateFramesActionRect(clip: GRect, dirty: int, fontHeight: int)
    ensures var layout := DecorateLayout(clip, dirty, fontHeight);
            var a := ActionRect(fontHeight);
            && |layout| == (if dirty != 0 then 3 else 2)
            && layout[0] == GRect(a.x + a.w, 0, 1, clip.h)
            && layout[1] == GRect(a.x, a.y + a.h, a.w, 1)
            && (dirty != 0 ==>
                  && Within(layout[2], a)
                  && layout[2].x == a.x + 2 && layout[2].y == a.y + 2
                  && layout[2].x + layout[2].w == layout[0].x - 2
                  && layout[2].y + layout[2].h == layout[1].y - 2)
  {
  }
}
