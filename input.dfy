/**
 The translation rules of HandleInput (sdl.c), as functions: how one native
 event changes the two flags the input thread keeps (`ctrl`: a Ctrl key is
 held; `move`: a left-button drag is in progress) and which event record, if
 any, it produces. The imperative handler that applies them to the context
 lives in module SdlGui; here are the rules and what they guarantee.
 */
module Input {
  import opened Gui
  import opened Sdl

  datatype InputState = InputState(ctrl: bool, move: bool)

  /** The outcome of translating one native event. */
  datatype Step = Step(state: InputState, out: Option<GEvent>)

  /** The state of a freshly created context (allocated zeroed). */
  const Initial: InputState := InputState(false, false)

  /**
   A text fragment is the C string before its terminating NUL, so it holds no
   zero byte, and the handler asserts that it is shorter than five bytes.
   */
  predicate WellFormed(e: NativeEvent)
  {
    e.TextInput? ==> |e.text| < 5 && 0 !in e.text
  }

  predicate AllWellFormed(events: seq<NativeEvent>)
  {
    forall i :: 0 <= i < |events| ==> WellFormed(events[i])
  }

  predicate IsCtrlKey(sym: int)
  {
    sym == SDLK_LCTRL || sym == SDLK_RCTRL
  }

  predicate IsLetterKey(sym: int)
  {
    SDLK_a <= sym <= SDLK_z
  }

  predicate IsFunctionKey(sym: int)
  {
    SDLK_F1 <= sym <= SDLK_F12
  }

  /** The button a press of an SDL button is reported as. */
  function ButtonCode(b: SdlButton): (r: GButton)
    ensures r == GBLeft <==> b == SdlLeft
  {
    match b
    case SdlLeft => GBLeft
    case SdlRight => GBRight
    case SdlMiddle => GBMiddle
    case SdlX1 => GBWheelUp
    case SdlX2 => GBWheelDown
  }

  /** The key code of a key whose meaning does not depend on the Ctrl flag, if it is one. */
  function FixedKey(sym: int): (r: Option<Rune>)
    ensures IsFunctionKey(sym) ==> r == Some(GKF1 + (sym - SDLK_F1))
    ensures IsFunctionKey(sym) ==> GKF1 <= r.value <= GKF12
    ensures IsCtrlKey(sym) || IsLetterKey(sym) ==> r.None?
  {
    if sym == SDLK_ESCAPE then Some(GKEsc)
    else if IsFunctionKey(sym) then Some(GKF1 + (sym - SDLK_F1))
    else if sym == SDLK_UP then Some(GKUp)
    else if sym == SDLK_DOWN then Some(GKDown)
    else if sym == SDLK_LEFT then Some(GKLeft)
    else if sym == SDLK_RIGHT then Some(GKRight)
    else if sym == SDLK_BACKSPACE then Some(GKBackspace)
    else if sym == SDLK_PAGEUP then Some(GKPageUp)
    else if sym == SDLK_PAGEDOWN then Some(GKPageDown)
    else if sym == SDLK_RETURN then Some('\n' as int)
    else if sym == SDLK_TAB then Some('\t' as int)
    else None
  }

  /** The control code a letter key gives while Ctrl is held: 'a' is 1, 'z' is 26. */
  function ChordCode(sym: int): (r: Rune)
    requires IsLetterKey(sym)
    ensures 1 <= r <= 26
    ensures r == 1 + (sym - SDLK_a)
  {
    1 + sym - SDLK_a
  }

  function KeyDownStep(s: InputState, sym: int): Step
  {
    if IsCtrlKey(sym) then Step(s.(ctrl := true), None)
    else if FixedKey(sym).Some? then Step(s, Some(GKey(FixedKey(sym).value)))
    else if s.ctrl && IsLetterKey(sym) then Step(s, Some(GKey(ChordCode(sym))))
    else Step(s, None)
  }

  /**
   One native event's effect on the flags and the record it produces. Only a
   Ctrl key event changes `ctrl`, only a left-button event changes `move`, and
   a drag is always reported as a left-button selection.
   */
  function Translate(s: InputState, e: NativeEvent, decode: Decoder): (r: Step)
    requires WellFormed(e)
    ensures r.state.ctrl != s.ctrl ==> (e.KeyDown? || e.KeyUp?) && IsCtrlKey(e.sym) && r.out.None?
    ensures r.state.move != s.move ==> (e.ButtonDown? || e.ButtonUp?) && e.button == SdlLeft
    ensures r.out.Some? && r.out.value.GMouseSelect? ==> e.Motion? && s.move && r.out.value.button == GBLeft
    ensures e.KeyUp? || e.ButtonUp? || e.OtherEvent? ==> r.out.None?
  {
    match e
    case TextInput(text) =>
      if |text| == 0 then Step(s, None) else Step(s, Some(GKey(decode(text))))
    case WindowEvent(data1, data2) => Step(s, Some(GResize(data1, data2)))
    case ButtonUp(b) => Step(if b == SdlLeft then s.(move := false) else s, None)
    case ButtonDown(b, x, y) =>
      Step(if b == SdlLeft then s.(move := true) else s, Some(GMouseDown(ButtonCode(b), x, y)))
    case Motion(x, y) => Step(s, if s.move then Some(GMouseSelect(GBLeft, x, y)) else None)
    case KeyUp(sym) => Step(if IsCtrlKey(sym) then s.(ctrl := false) else s, None)
    case KeyDown(sym) => KeyDownStep(s, sym)
    case OtherEvent => Step(s, None)
  }

  /** The Ctrl chord: Ctrl down sets the flag, Ctrl up clears it, a letter gives 1..26 only while it is set. */
  lemma CtrlChord(s: InputState, sym: int, decode: Decoder)
    ensures IsCtrlKey(sym) ==> Translate(s, KeyDown(sym), decode) == Step(s.(ctrl := true), None)
    ensures IsCtrlKey(sym) ==> Translate(s, KeyUp(sym), decode) == Step(s.(ctrl := false), None)
    ensures IsLetterKey(sym) ==>
      && Translate(s, KeyDown(sym), decode).state == s
      && (s.ctrl ==> Translate(s, KeyDown(sym), decode).out == Some(GKey(1 + (sym - SDLK_a))))
      && (!s.ctrl ==> Translate(s, KeyDown(sym), decode).out == None)
    ensures !IsCtrlKey(sym) ==> Translate(s, KeyUp(sym), decode) == Step(s, None)
    ensures !IsCtrlKey(sym) && !IsLetterKey(sym) && FixedKey(sym).None? ==>
      Translate(s, KeyDown(sym), decode) == Step(s, None)
  {
  }

  /** Drag tracking: only the left button starts and ends a drag; motion reports it as a left-button selection. */
  lemma DragTracking(s: InputState, b: SdlButton, x: int, y: int, decode: Decoder)
    ensures Translate(s, ButtonDown(b, x, y), decode).out == Some(GMouseDown(ButtonCode(b), x, y))
    ensures Translate(s, ButtonDown(b, x, y), decode).state == if b == SdlLeft then s.(move := true) else s
    ensures Translate(s, ButtonUp(b), decode) == Step(if b == SdlLeft then s.(move := false) else s, None)
    ensures Translate(s, Motion(x, y), decode).state == s
    ensures Translate(s, Motion(x, y), decode).out.Some? <==> s.move
    ensures s.move ==> Translate(s, Motion(x, y), decode).out == Some(GMouseSelect(GBLeft, x, y))
  {
  }

  /** The fixed keys give their codes whatever the Ctrl flag, and change no flag. */
  lemma FixedKeyMapping(s: InputState, sym: int, decode: Decoder)
    ensures FixedKey(sym).Some? ==>
      Translate(s, KeyDown(sym), decode) == Step(s, Some(GKey(FixedKey(sym).value)))
    ensures Translate(s, KeyDown(SDLK_ESCAPE), decode).out == Some(GKey(GKEsc))
    ensures Translate(s, KeyDown(SDLK_UP), decode).out == Some(GKey(GKUp))
    ensures Translate(s, KeyDown(SDLK_DOWN), decode).out == Some(GKey(GKDown))
    ensures Translate(s, KeyDown(SDLK_LEFT), decode).out == Some(GKey(GKLeft))
    ensures Translate(s, KeyDown(SDLK_RIGHT), decode).out == Some(GKey(GKRight))
    ensures Translate(s, KeyDown(SDLK_BACKSPACE), decode).out == Some(GKey(GKBackspace))
    ensures Translate(s, KeyDown(SDLK_PAGEUP), decode).out == Some(GKey(GKPageUp))
    ensures Translate(s, KeyDown(SDLK_PAGEDOWN), decode).out == Some(GKey(GKPageDown))
    ensures Translate(s, KeyDown(SDLK_RETURN), decode).out == Some(GKey('\n' as int))
    ensures Translate(s, KeyDown(SDLK_TAB), decode).out == Some(GKey('\t' as int))
  {
    assert FixedKey(SDLK_ESCAPE) == Some(GKEsc);
    assert FixedKey(SDLK_UP) == Some(GKUp);
    assert FixedKey(SDLK_DOWN) == Some(GKDown);
    assert FixedKey(SDLK_LEFT) == Some(GKLeft);
    assert FixedKey(SDLK_RIGHT) == Some(GKRight);
    assert FixedKey(SDLK_BACKSPACE) == Some(GKBackspace);
    assert FixedKey(SDLK_PAGEUP) == Some(GKPageUp);
    assert FixedKey(SDLK_PAGEDOWN) == Some(GKPageDown);
    assert FixedKey(SDLK_RETURN) == Some('\n' as int);
    assert FixedKey(SDLK_TAB) == Some('\t' as int);
  }

  /** F1..F12 map to twelve consecutive codes from GKF1, so their order is kept. */
  lemma FunctionKeyOrder(s: InputState, f: int, g: int, decode: Decoder)
    requires IsFunctionKey(f) && IsFunctionKey(g)
    ensures Translate(s, KeyDown(f), decode).out == Some(GKey(GKF1 + (f - SDLK_F1)))
    ensures f < g <==> FixedKey(f).value < FixedKey(g).value
    ensures FixedKey(f).value - GKF1 == f - SDLK_F1
  {
  }

  /** Text and window events: one record each, except an empty fragment, which gives none. */
  lemma TextAndWindow(s: InputState, text: seq<byte>, data1: int, data2: int, decode: Decoder)
    requires |text| < 5 && 0 !in text
    ensures Translate(s, TextInput(text), decode).state == s
    ensures Translate(s, TextInput(text), decode).out == if text == [] then None else Some(GKey(decode(text)))
    ensures Translate(s, WindowEvent(data1, data2), decode) == Step(s, Some(GResize(data1, data2)))
  {
  }

  /** Events that never produce a record: key and button releases, and the unhandled ones. */
  predicate Silent(e: NativeEvent)
  {
    e.KeyUp? || e.ButtonUp? || e.OtherEvent?
  }

  /**
   The records a run of native events produces, in event order: each event's
   record, if any, before those of the events after it. A run of silent events
   produces none.
   */
  function TranslateTrace(s: InputState, events: seq<NativeEvent>, decode: Decoder): (r: seq<GEvent>)
    requires AllWellFormed(events)
    ensures (forall i :: 0 <= i < |events| ==> Silent(events[i])) ==> r == []
    decreases |events|
  {
    if events == [] then []
    else
      var step := Translate(s, events[0], decode);
      AsSeq(step.out) + TranslateTrace(step.state, events[1..], decode)
  }

  /**
   The flags after a run of native events: a run without a Ctrl key event
   leaves `ctrl` as it was, and one without a left-button event leaves `move`.
   */
  function FinalState(s: InputState, events: seq<NativeEvent>, decode: Decoder): (r: InputState)
    requires AllWellFormed(events)
    ensures (forall i :: 0 <= i < |events| ==> !((events[i].KeyDown? || events[i].KeyUp?) && IsCtrlKey(events[i].sym)))
            ==> r.ctrl == s.ctrl
    ensures (forall i :: 0 <= i < |events| ==> !((events[i].ButtonDown? || events[i].ButtonUp?) && events[i].button == SdlLeft))
            ==> r.move == s.move
    decreases |events|
  {
    if events == [] then s
    else FinalState(Translate(s, events[0], decode).state, events[1..], decode)
  }

  /** No event yields more than one record. */
  lemma {:induction false} TraceAtMostOnePerEvent(s: InputState, events: seq<NativeEvent>, decode: Decoder)
    requires AllWellFormed(events)
    ensures |TranslateTrace(s, events, decode)| <= |events|
    decreases |events|
  {
    if events != [] {
      TraceAtMostOnePerEvent(Translate(s, events[0], decode).state, events[1..], decode);
    }
  }

  /**
   Translation is compositional: the records of a run are those of its first
   part followed by those of the rest, started from the flags the first part
   left. So records appear in the order of the events that caused them.
   */
  lemma {:induction false} TraceAppend(s: InputState, a: seq<NativeEvent>, b: seq<NativeEvent>, decode: Decoder)
    requires AllWellFormed(a) && AllWellFormed(b)
    ensures AllWellFormed(a + b)
    ensures TranslateTrace(s, a + b, decode)
            == TranslateTrace(s, a, decode) + TranslateTrace(FinalState(s, a, decode), b, decode)
    ensures FinalState(s, a + b, decode) == FinalState(FinalState(s, a, decode), b, decode)
    decreases |a|
  {
    assert AllWellFormed(a + b) by {
      forall i | 0 <= i < |a + b| ensures WellFormed((a + b)[i]) {
        if i < |a| { assert (a + b)[i] == a[i]; } else { assert (a + b)[i] == b[i - |a|]; }
      }
    }
    if a != [] {
      var step := Translate(s, a[0], decode);
      assert (a + b)[0] == a[0];
      assert (a + b)[1..] == a[1..] + b;
      TraceAppend(step.state, a[1..], b, decode);
    } else {
      assert a + b == b;
    }
  }

  /** Extending a run by one event adds that event's record, if any, at the end. */
  lemma TraceSnoc(s: InputState, events: seq<NativeEvent>, e: NativeEvent, decode: Decoder)
    requires AllWellFormed(events) && WellFormed(e)
    ensures AllWellFormed(events + [e])
    ensures TranslateTrace(s, events + [e], decode)
            == TranslateTrace(s, events, decode) + AsSeq(Translate(FinalState(s, events, decode), e, decode).out)
    ensures FinalState(s, events + [e], decode) == Translate(FinalState(s, events, decode), e, decode).state
  {
    TraceAppend(s, events, [e], decode);
    assert [e][1..] == [];
  }

  /**
   Handling the events of a run one at a time: the records of the first
   `i + 1` events extend those of the first `i` by the record of event `i`,
   and never outnumber the records of the whole run.
   */
  lemma TracePrefixStep(s: InputState, events: seq<NativeEvent>, i: nat, decode: Decoder)
    requires AllWellFormed(events) && i < |events|
    ensures AllWellFormed(events[..i]) && AllWellFormed(events[..i + 1])
    ensures TranslateTrace(s, events[..i + 1], decode)
            == TranslateTrace(s, events[..i], decode) + AsSeq(Translate(FinalState(s, events[..i], decode), events[i], decode).out)
    ensures FinalState(s, events[..i + 1], decode) == Translate(FinalState(s, events[..i], decode), events[i], decode).state
    ensures |TranslateTrace(s, events[..i + 1], decode)| <= |TranslateTrace(s, events, decode)|
  {
    assert events[..i + 1] == events[..i] + [events[i]];
    TraceSnoc(s, events[..i], events[i], decode);
    assert events[..i + 1] + events[i + 1..] == events;
    TraceAppend(s, events[..i + 1], events[i + 1..], decode);
  }

  /** Every non-empty text fragment gives exactly one key record: typed text is neither lost nor doubled. */
  lemma {:induction false} TextTrace(s: InputState, texts: seq<NativeEvent>, decode: Decoder)
    requires forall i :: 0 <= i < |texts| ==> texts[i].TextInput? && 0 < |texts[i].text| < 5 && 0 !in texts[i].text
    ensures AllWellFormed(texts)
    ensures |TranslateTrace(s, texts, decode)| == |texts|
    ensures forall i :: 0 <= i < |texts| ==> TranslateTrace(s, texts, decode)[i] == GKey(decode(texts[i].text))
    ensures FinalState(s, texts, decode) == s
  {
    if texts != [] {
      TextTrace(s, texts[1..], decode);
      var rest := TranslateTrace(s, texts[1..], decode);
      assert TranslateTrace(s, texts, decode) == [GKey(decode(texts[0].text))] + rest;
    }
  }
}
