/**
 The SDL GUI module of sdl.c as an explicit context object instead of the
 process-wide `globalContext`: the input-side handler that translates native
 events and writes records into the channel, the consumer-side accessor that
 reads them back, and the drawing calls, which record their commands in the
 renderer. Threads are not modelled: producer and consumer steps are calls
 on one context, interleaved in some order.
 */
module SdlGui {
  import opened Gui
  import opened Sdl
  import opened EventChan
  import opened Input
  import opened Draw

  /**
   The record handed to the editor for a record read from the channel: a
   resize with a zero width or height stands for the default window size.
   */
  function WithDefaultSize(ev: GEvent): (r: GEvent)
    ensures r.GResize? <==> ev.GResize?
    ensures ev.GResize? && (ev.width == 0 || ev.height == 0) ==> r == GResize(Width, Height)
    ensures !(ev.GResize? && (ev.width == 0 || ev.height == 0)) ==> r == ev
    ensures r.GResize? ==> r.width != 0 && r.height != 0
  {
    if ev.GResize? && (ev.width == 0 || ev.height == 0) then GResize(Width, Height) else ev
  }

  /** Substituting the default size a second time changes nothing. */
  lemma WithDefaultSizeIdempotent(ev: GEvent)
    ensures WithDefaultSize(WithDefaultSize(ev)) == WithDefaultSize(ev)
  {
  }

  /** What the editor is handed for a run of records. */
  function Delivered(records: seq<GEvent>): (r: seq<GEvent>)
    ensures |r| == |records|
    ensures forall i :: 0 <= i < |records| ==> r[i] == WithDefaultSize(records[i])
  {
    seq(|records|, i requires 0 <= i < |records| => WithDefaultSize(records[i]))
  }

  lemma DeliveredAppend(a: seq<GEvent>, b: seq<GEvent>)
    ensures Delivered(a + b) == Delivered(a) + Delivered(b)
  {
  }

  /** A record put into the channel joins both the pending records and all the records produced. */
  lemma DeliveredProduce(delivered: seq<GEvent>, pending: seq<GEvent>, records: seq<GEvent>, out: seq<GEvent>)
    requires delivered + Delivered(pending) == Delivered(records)
    ensures delivered + Delivered(pending + out) == Delivered(records + out)
  {
    DeliveredAppend(pending, out);
    DeliveredAppend(records, out);
  }

  /** A record read from the channel moves from the pending records to the delivered ones. */
  lemma DeliveredConsume(delivered: seq<GEvent>, pending: seq<GEvent>, records: seq<GEvent>)
    requires pending != []
    requires delivered + Delivered(pending) == Delivered(records)
    ensures (delivered + [WithDefaultSize(pending[0])]) + Delivered(pending[1..]) == Delivered(records)
  {
    var head, rest := pending[0], pending[1..];
    assert pending == [head] + rest;
    DeliveredAppend([head], rest);
    assert Delivered([head]) == [WithDefaultSize(head)];
    assert Delivered(pending) == [WithDefaultSize(head)] + Delivered(rest);
  }

  /** A fresh buffer of the runes cast to uint16_t, followed by a terminating zero. */
  method ShortText(str: seq<Rune>) returns (text: array<int>)
    ensures fresh(text)
    ensures text[..] == ShortRunes(str) + [0]
  {
    var len := |str|;
    text := new int[len + 1];
    var i := 0;
    while i < len
      invariant 0 <= i <= len
      invariant forall k :: 0 <= k < i ==> text[k] == ShortRune(str[k])
    {
      text[i] := ShortRune(str[i]);
      i := i + 1;
    }
    text[len] := 0;
  }

  class GSdlContext {
    const chan: GEventChan
    const renderer: Renderer
    const font: TtfFont
    const decode: Decoder
    const width: int
    const height: int
    const border: int
    /** A Ctrl key went down and has not come up yet. */
    var ctrl: bool
    /** The left button went down and has not come up yet. */
    var move: bool

    ghost predicate Valid()
      reads this, chan
    {
      chan.Valid()
    }

    function State(): InputState
      reads this
    {
      InputState(ctrl, move)
    }

    /** A zeroed context with an empty channel and a renderer that has drawn nothing. */
    constructor (width: int, height: int, border: int, capacity: nat, font: TtfFont, decode: Decoder)
      ensures Valid() && fresh(chan) && fresh(renderer)
      ensures chan.queue == [] && chan.capacity == capacity && renderer.commands == []
      ensures State() == Initial
      ensures this.font == font && this.decode == decode
      ensures this.width == width && this.height == height && this.border == border
    {
      this.width, this.height, this.border := width, height, border;
      this.font, this.decode := font, decode;
      chan := new GEventChan(capacity);
      renderer := new Renderer();
      ctrl, move := false, false;
    }

    /**
     One poll of the input thread: `None` is a poll that timed out. The event
     is translated, the flags are updated and the record, if any, is put into
     the channel; a failed put drops it.
     */
    method HandleInput(polled: Option<NativeEvent>)
      requires Valid() && (polled.Some? ==> WellFormed(polled.value))
      modifies this, chan
      ensures Valid()
      ensures polled.None? ==> State() == old(State()) && chan.queue == old(chan.queue)
      ensures polled.Some? ==>
        var step := Translate(old(State()), polled.value, decode);
        State() == step.state && chan.queue == Offered(old(chan.queue), chan.capacity, step.out)
    {
      if polled.None? {
        return;
      }
      var rc: int;
      match polled.value
      case TextInput(text) =>
        if |text| != 0 {
          rc := chan.Put(GKey(decode(text)));
        }
      case WindowEvent(data1, data2) =>
        rc := chan.Put(GResize(data1, data2));
      case ButtonUp(b) =>
        if b == SdlLeft {
          move := false;
        }
      case ButtonDown(b, x, y) =>
        var button: GButton;
        match b {
          case SdlLeft =>
            button := GBLeft;
            move := true;
          case SdlRight =>
            button := GBRight;
          case SdlMiddle =>
            button := GBMiddle;
          case SdlX1 =>
            button := GBWheelUp;
          case SdlX2 =>
            button := GBWheelDown;
        }
        rc := chan.Put(GMouseDown(button, x, y));
      case Motion(x, y) =>
        if move {
          rc := chan.Put(GMouseSelect(GBLeft, x, y));
        }
      case KeyUp(sym) =>
        if sym == SDLK_LCTRL || sym == SDLK_RCTRL {
          ctrl := false;
        }
      case KeyDown(sym) =>
        if sym == SDLK_ESCAPE {
          rc := chan.Put(GKey(GKEsc));
        } else if SDLK_F1 <= sym <= SDLK_F12 {
          rc := chan.Put(GKey(GKF1 + (sym - SDLK_F1)));
        } else if sym == SDLK_UP {
          rc := chan.Put(GKey(GKUp));
        } else if sym == SDLK_DOWN {
          rc := chan.Put(GKey(GKDown));
        } else if sym == SDLK_LEFT {
          rc := chan.Put(GKey(GKLeft));
        } else if sym == SDLK_RIGHT {
          rc := chan.Put(GKey(GKRight));
        } else if sym == SDLK_BACKSPACE {
          rc := chan.Put(GKey(GKBackspace));
        } else if sym == SDLK_PAGEUP {
          rc := chan.Put(GKey(GKPageUp));
        } else if sym == SDLK_PAGEDOWN {
          rc := chan.Put(GKey(GKPageDown));
        } else if sym == SDLK_RETURN {
          rc := chan.Put(GKey('\n' as int));
        } else if sym == SDLK_TAB {
          rc := chan.Put(GKey('\t' as int));
        } else if sym == SDLK_LCTRL || sym == SDLK_RCTRL {
          ctrl := true;
        } else if ctrl && SDLK_a <= sym <= SDLK_z {
          // A Ctrl chord arrives as the Ctrl key event followed by the letter key event.
          rc := chan.Put(GKey(1 + sym - SDLK_a));
        }
      case OtherEvent =>
    }

    /**
     The input thread's loop over a run of native events, with no consumer in
     between: the flags end as the rules say, and the channel takes the
     records in event order until it is full.
     */
    method Pump(events: seq<NativeEvent>)
      requires Valid() && AllWellFormed(events)
      modifies this, chan
      ensures Valid()
      ensures State() == FinalState(old(State()), events, decode)
      ensures chan.queue == Filled(old(chan.queue), chan.capacity, TranslateTrace(old(State()), events, decode))
    {
      ghost var s0 := State();
      ghost var q0 := chan.queue;
      assert q0 + [] == q0;
      var i := 0;
      while i < |events|
        invariant 0 <= i <= |events| && Valid()
        invariant AllWellFormed(events[..i])
        invariant State() == FinalState(s0, events[..i], decode)
        invariant chan.queue == Filled(q0, chan.capacity, TranslateTrace(s0, events[..i], decode))
      {
        var e := events[i];
        assert events[..i + 1] == events[..i] + [e];
        TraceSnoc(s0, events[..i], e, decode);
        FilledOffered(q0, chan.capacity, TranslateTrace(s0, events[..i], decode), Translate(State(), e, decode).out);
        HandleInput(Some(e));
        i := i + 1;
      }
      assert events[..|events|] == events;
    }

    /**
     The editor's poll: 1 and the oldest record, with the default size
     substituted, when there is one; otherwise 0 and the buffer `ev` as it was.
     */
    method NextEvent(ev: GEvent) returns (rc: int, next: GEvent)
      requires Valid()
      modifies chan
      ensures Valid()
      ensures rc == 0 || rc == 1
      ensures rc == 1 <==> old(chan.queue) != []
      ensures rc == 1 ==> next == WithDefaultSize(old(chan.queue)[0]) && chan.queue == old(chan.queue)[1..]
      ensures rc == 0 ==> next == ev && chan.queue == old(chan.queue)
    {
      rc := 0;
      var er;
      er, next := chan.Get(ev);
      if er == 0 {
        if next.GResize? && (next.width == 0 || next.height == 0) {
          next := next.(width := Width, height := Height);
        }
        rc := 1;
      }
    }

    /** Draws (records) one rectangle request, clipped and translated by `clip`. */
    method DrawRect(clip: GRect, x: int, y: int, w: int, h: int, c: GColor)
      modifies renderer
      ensures renderer.commands == old(renderer.commands) + [RectCommand(clip, GRect(x, y, w, h), c)]
    {
      var rx, ry, rw, rh := x, y, w, h;
      if rx + rw > clip.w {
        rw := clip.w - rx;
      }
      if ry + rh > clip.h {
        rh := clip.h - ry;
      }
      rx := rx + clip.x;
      ry := ry + clip.y;
      var rect := SdlRect(rx, ry, rw, rh);
      var color := SdlColor(c.red, c.green, c.blue, 255);
      if c.x != 0 {
        renderer.Render(RectCmd(rect, color, true));
      } else {
        renderer.Render(RectCmd(rect, color, false));
      }
    }

    /** The cursor: a 2-pixel bar in insert mode, otherwise a block `w` wide, one font height tall. */
    method DrawCursor(clip: GRect, insert: int, x: int, y: int, w: int)
      modifies renderer
      ensures renderer.commands == old(renderer.commands)
        + [RectCommand(clip, GRect(x, y, if insert != 0 then 2 else w, font.height), GXBlack)]
    {
      if insert != 0 {
        DrawRect(clip, x, y, 2, font.height, GXBlack);
      } else {
        DrawRect(clip, x, y, w, font.height, GXBlack);
      }
    }

    /** The width the font library measures for the runes cast to 16 bits, up to the first zero. */
    method TextWidth(str: seq<Rune>) returns (w: int)
      ensures w == font.measure(UpToNul(ShortRunes(str)))
    {
      var text := ShortText(str);
      UpToNulTerminated(ShortRunes(str));
      w := font.measure(UpToNul(text[..]));
    }

    /**
     Draws (records) a run of text with its baseline at (x, y) in the clip: the
     rendered surface's top-left corner is one ascent above the baseline. Text
     of zero measured width draws nothing.
     */
    method DrawText(clip: GRect, str: seq<Rune>, x: int, y: int, c: GColor)
      modifies renderer
      ensures var text := UpToNul(ShortRunes(str));
        renderer.commands == old(renderer.commands)
          + (if font.measure(text) != 0
             then [TextCmd(clip.x + x, clip.y + y - font.ascent, text, RenderColor(c))]
             else [])
    {
      var text := ShortText(str);
      UpToNulTerminated(ShortRunes(str));
      var qx := x + clip.x;
      var qy := y + clip.y;
      qy := qy - font.ascent;
      var width := TextWidth(str);
      if width != 0 {
        renderer.Render(TextCmd(qx, qy, UpToNul(text[..]), SdlColor(c.red, c.green, c.blue, 255)));
      }
    }

    /** Draws the gutter decoration: the two separators and, when `dirty` is set, the dirty box. */
    method Decorate(clip: GRect, dirty: int, c: GColor)
      modifies renderer
      ensures renderer.commands == old(renderer.commands)
        + RectCommands(clip, DecorateLayout(clip, dirty, font.height), c)
    {
      var boxh := VMargin + font.height;
      DrawRect(clip, HMargin - 3, 0, 1, clip.h, c);
      DrawRect(clip, 0, boxh, HMargin - 3, 1, c);
      if dirty != 0 {
        DrawRect(clip, 2, 2, HMargin - 7, boxh - 4, c);
      }
    }
  }

  /**
   Module initialisation: a context with the default dimensions, its channel
   (whose readable end is what the editor waits on) and the action rectangle.
   */
  method Init(capacity: nat, font: TtfFont, decode: Decoder)
    returns (cont: GSdlContext, readEnd: GEventChan, actionr: GRect)
    ensures fresh(cont) && fresh(cont.chan) && fresh(cont.renderer)
    ensures cont.Valid() && cont.State() == Initial
    ensures cont.chan.queue == [] && cont.chan.capacity == capacity && cont.renderer.commands == []
    ensures cont.font == font && cont.decode == decode
    ensures cont.width == Width && cont.height == Height && cont.border == Border
    ensures readEnd == cont.chan
    ensures actionr == ActionRect(font.height)
  {
    cont := new GSdlContext(Width, Height, Border, capacity, font, decode);
    actionr := GRect(0, 0, 0, 0);
    actionr := actionr.(w := HMargin - 3);
    actionr := actionr.(h := VMargin + font.height);
    readEnd := cont.chan;
  }

  /**
   A session in which the input thread handles a run of native events before
   the editor polls: the editor receives, in event order, the records of the
   run that fit in the channel, each with the default size substituted, and
   then a poll that finds nothing (`lastRc`).
   */
  method RunSession(events: seq<NativeEvent>, capacity: nat, font: TtfFont, decode: Decoder)
    returns (delivered: seq<GEvent>, lastRc: int)
    requires AllWellFormed(events)
    ensures lastRc == 0
    ensures delivered == Delivered(Filled([], capacity, TranslateTrace(Initial, events, decode)))
    ensures |TranslateTrace(Initial, events, decode)| <= capacity ==>
              delivered == Delivered(TranslateTrace(Initial, events, decode))
  {
    var cont, _, _ := Init(capacity, font, decode);
    cont.Pump(events);
    ghost var pending := cont.chan.queue;
    delivered := [];
    var ev := GKey(0);
    var rc := 1;
    while rc == 1
      invariant cont.Valid()
      invariant rc == 0 || rc == 1
      invariant delivered + Delivered(cont.chan.queue) == Delivered(pending)
      invariant rc == 0 ==> cont.chan.queue == []
      decreases |cont.chan.queue| + rc
    {
      ghost var before := cont.chan.queue;
      rc, ev := cont.NextEvent(ev);
      if rc == 1 {
        assert Delivered(before) == [ev] + Delivered(cont.chan.queue);
        delivered := delivered + [ev];
      }
    }
    lastRc := rc;
    assert delivered == Delivered(pending);
    assert [] + TranslateTrace(Initial, events, decode) == TranslateTrace(Initial, events, decode);
  }

  /**
   The two threads' steps interleaved on one context: the input thread
   handles the native events in order, and after the i-th of them the editor
   polls `polls[i]` times. When the channel can hold every record of the run,
   the editor receives a prefix of the records of the events, in event order,
   with the default size substituted, and nothing is lost or repeated: the
   rest is still pending in the channel.
   */
  method RunInterleaved(events: seq<NativeEvent>, polls: seq<nat>, capacity: nat, font: TtfFont, decode: Decoder)
    returns (delivered: seq<GEvent>, pending: seq<GEvent>)
    requires AllWellFormed(events) && |polls| == |events|
    requires |TranslateTrace(Initial, events, decode)| <= capacity
    ensures delivered + Delivered(pending) == Delivered(TranslateTrace(Initial, events, decode))
    ensures delivered <= Delivered(TranslateTrace(Initial, events, decode))
  {
    var cont, _, _ := Init(capacity, font, decode);
    delivered := [];
    var ev := GKey(0);
    ghost var records: seq<GEvent> := [];
    var i := 0;
    while i < |events|
      invariant 0 <= i <= |events| && cont.Valid() && cont.chan.capacity == capacity
      invariant records == TranslateTrace(Initial, events[..i], decode)
      invariant cont.State() == FinalState(Initial, events[..i], decode)
      invariant |cont.chan.queue| <= |records| <= |TranslateTrace(Initial, events, decode)|
      invariant delivered + Delivered(cont.chan.queue) == Delivered(records)
    {
      var e := events[i];
      ghost var before := cont.chan.queue;
      ghost var step := Translate(cont.State(), e, decode);
      TracePrefixStep(Initial, events, i, decode);
      cont.HandleInput(Some(e));
      DeliveredProduce(delivered, before, records, AsSeq(step.out));
      records := records + AsSeq(step.out);
      var k := 0;
      while k < polls[i]
        invariant cont.Valid() && cont.chan.capacity == capacity
        invariant cont.State() == FinalState(Initial, events[..i + 1], decode)
        invariant |cont.chan.queue| <= |records|
        invariant delivered + Delivered(cont.chan.queue) == Delivered(records)
      {
        ghost var queued := cont.chan.queue;
        var rc;
        rc, ev := cont.NextEvent(ev);
        if rc == 1 {
          DeliveredConsume(delivered, queued, records);
          delivered := delivered + [ev];
        }
        k := k + 1;
      }
      i := i + 1;
    }
    assert events[..|events|] == events;
    pending := cont.chan.queue;
    assert Delivered(records)[..|delivered|] == delivered;
  }
}
