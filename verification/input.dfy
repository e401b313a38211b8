/** The keyboard and mouse-button state of `platform/input.c`: the current
    and previous frame's key and button arrays, and the window the input is
    attached to (0 for every window). Mouse position, motion deltas and the
    scroll accumulator are floating-point values and are not modelled. */
module Input {
  import opened Common

  /** `SDL_SCANCODE_COUNT` in SDL 3. */
  const SCANCODE_COUNT: nat := 512

  /** Length of the mouse-button arrays. */
  const BUTTON_SLOTS: nat := 8

  /** `SDL_BUTTON_LEFT`, `SDL_BUTTON_MIDDLE`, `SDL_BUTTON_RIGHT`; the
      engine's `MouseButton` values are the same numbers. */
  const BUTTON_LEFT: nat := 1
  const BUTTON_MIDDLE: nat := 2
  const BUTTON_RIGHT: nat := 3

  /** The SDL event types the engine reacts to; everything else is
      `OtherEvent`. */
  datatype EventType =
    | QuitEvent
    | KeyDown | KeyUp
    | MouseMotion | MouseButtonDown | MouseButtonUp | MouseWheel
    | WindowCloseRequested | WindowMinimized | WindowRestored
    | WindowPixelSizeChanged | WindowResized
    | OtherEvent

  /** The fields of an `SDL_Event` the engine reads: its type, the window id
      of whichever member the type selects, the scancode of a key event, the
      button of a button event, and the `down` flag of either. */
  datatype Event = Event(kind: EventType, windowId: u32, scancode: int, button: nat, down: bool)

  datatype InputState = InputState(
    keys: seq<bool>, keysPrevious: seq<bool>,
    buttons: seq<bool>, buttonsPrevious: seq<bool>,
    windowId: u32)
  {
    predicate Valid() {
      && |keys| == SCANCODE_COUNT && |keysPrevious| == SCANCODE_COUNT
      && |buttons| == BUTTON_SLOTS && |buttonsPrevious| == BUTTON_SLOTS
    }
  }

  function AllUp(n: nat): (r: seq<bool>)
    ensures |r| == n && forall i :: 0 <= i < n ==> !r[i]
  {
    seq(n, _ => false)
  }

  /** `input_init`: every key and button up, attached to every window. */
  function Init(): (r: InputState)
    ensures r.Valid() && r.windowId == 0
    ensures forall k :: 0 <= k < SCANCODE_COUNT ==> !r.keys[k] && !r.keysPrevious[k]
    ensures forall b :: 0 <= b < BUTTON_SLOTS ==> !r.buttons[b] && !r.buttonsPrevious[b]
  {
    InputState(AllUp(SCANCODE_COUNT), AllUp(SCANCODE_COUNT), AllUp(BUTTON_SLOTS), AllUp(BUTTON_SLOTS), 0)
  }

  /** `input_attach_window`. */
  function AttachWindow(s: InputState, id: u32): (r: InputState)
    ensures r.windowId == id && r.(windowId := s.windowId) == s
  {
    s.(windowId := id)
  }

  /** `input_update`: the current arrays become the previous ones. */
  function Update(s: InputState): (r: InputState)
    requires s.Valid()
    ensures r.Valid() && r.keys == s.keys && r.buttons == s.buttons && r.windowId == s.windowId
    ensures r.keysPrevious == s.keys && r.buttonsPrevious == s.buttons
  {
    s.(keysPrevious := s.keys, buttonsPrevious := s.buttons)
  }

  /** The event types that carry a window id the filter looks at. */
  predicate Filtered(k: EventType) {
    k == KeyDown || k == KeyUp || k == MouseMotion || k == MouseButtonDown || k == MouseButtonUp || k == MouseWheel
  }

  /** `input_event_matches_window`. */
  function MatchesWindow(s: InputState, e: Event): (r: bool)
    ensures r <==> s.windowId == 0 || !Filtered(e.kind) || e.windowId == s.windowId
  {
    if s.windowId == 0 then true
    else
      match e.kind
      case KeyDown => e.windowId == s.windowId
      case KeyUp => e.windowId == s.windowId
      case MouseMotion => e.windowId == s.windowId
      case MouseButtonDown => e.windowId == s.windowId
      case MouseButtonUp => e.windowId == s.windowId
      case MouseWheel => e.windowId == s.windowId
      case _ => true
  }

  /** `mouse_button_to_index`: the three buttons the engine knows map to
      their own number, every other button to -1. */
  function ButtonIndex(button: nat): (r: int)
    ensures r == -1 || (1 <= r <= 3 && r == button)
    ensures r != -1 <==> button in {BUTTON_LEFT, BUTTON_MIDDLE, BUTTON_RIGHT}
  {
    if button == BUTTON_LEFT then BUTTON_LEFT
    else if button == BUTTON_MIDDLE then BUTTON_MIDDLE
    else if button == BUTTON_RIGHT then BUTTON_RIGHT
    else -1
  }

  /** `input_handle_event`, restricted to the key and button state: a key
      event with a scancode in range records its `down` flag, a button event
      for a known button records its flag, an event for another window is
      dropped. */
  function HandleEvent(s: InputState, e: Event): (r: InputState)
    requires s.Valid()
    ensures r.Valid() && r.keysPrevious == s.keysPrevious && r.buttonsPrevious == s.buttonsPrevious
    ensures r.windowId == s.windowId
    ensures !MatchesWindow(s, e) ==> r == s
  {
    if !MatchesWindow(s, e) then s
    else if e.kind == KeyDown || e.kind == KeyUp then
      if 0 <= e.scancode < SCANCODE_COUNT then s.(keys := s.keys[e.scancode := e.down]) else s
    else if e.kind == MouseButtonDown || e.kind == MouseButtonUp then
      var index := ButtonIndex(e.button);
      if 0 <= index < BUTTON_SLOTS then s.(buttons := s.buttons[index := e.down]) else s
    else s
  }

  /** `input_key_down`. `KeyCode` values are scancodes, so in range. */
  function KeyIsDown(s: InputState, key: nat): bool
    requires s.Valid() && key < SCANCODE_COUNT
  {
    s.keys[key]
  }

  /** `input_key_pressed`: down now, up in the previous frame. */
  function KeyPressed(s: InputState, key: nat): (r: bool)
    requires s.Valid() && key < SCANCODE_COUNT
    ensures r ==> KeyIsDown(s, key)
  {
    s.keys[key] && !s.keysPrevious[key]
  }

  /** `input_key_released`: up now, down in the previous frame. */
  function KeyReleased(s: InputState, key: nat): (r: bool)
    requires s.Valid() && key < SCANCODE_COUNT
    ensures r ==> !KeyIsDown(s, key)
  {
    !s.keys[key] && s.keysPrevious[key]
  }

  /** `input_mouse_down`; the `MouseButton` values index the array. */
  function MouseIsDown(s: InputState, button: nat): bool
    requires s.Valid() && button < BUTTON_SLOTS
  {
    s.buttons[button]
  }

  /** `input_mouse_pressed`. */
  function MousePressed(s: InputState, button: nat): (r: bool)
    requires s.Valid() && button < BUTTON_SLOTS
    ensures r ==> MouseIsDown(s, button)
  {
    s.buttons[button] && !s.buttonsPrevious[button]
  }

  /** `input_mouse_released`. */
  function MouseReleased(s: InputState, button: nat): (r: bool)
    requires s.Valid() && button < BUTTON_SLOTS
    ensures r ==> !MouseIsDown(s, button)
  {
    !s.buttons[button] && s.buttonsPrevious[button]
  }

  /** A key is never pressed and released at once, nor is a button. */
  lemma EdgesExclusive(s: InputState, key: nat, button: nat)
    requires s.Valid() && key < SCANCODE_COUNT && button < BUTTON_SLOTS
    ensures !(KeyPressed(s, key) && KeyReleased(s, key))
    ensures !(MousePressed(s, button) && MouseReleased(s, button))
  {
  }

  /** Right after `input_update` no key or button has an edge. */
  lemma UpdateClearsEdges(s: InputState)
    requires s.Valid()
    ensures var r := Update(s);
      && (forall k :: 0 <= k < SCANCODE_COUNT ==> !KeyPressed(r, k) && !KeyReleased(r, k))
      && (forall b :: 0 <= b < BUTTON_SLOTS ==> !MousePressed(r, b) && !MouseReleased(r, b))
  {
  }

  /** A frame boundary followed by an accepted key event: the key is
      pressed exactly when the event is a press of a key that was up, and
      released exactly when it is a release of a key that was down; every
      other key keeps its state and has no edge. */
  lemma KeyEventEdges(s: InputState, e: Event)
    requires s.Valid() && (e.kind == KeyDown || e.kind == KeyUp) && 0 <= e.scancode < SCANCODE_COUNT
    requires MatchesWindow(s, e)
    ensures var r := HandleEvent(Update(s), e);
      && (KeyPressed(r, e.scancode) <==> e.down && !s.keys[e.scancode])
      && (KeyReleased(r, e.scancode) <==> !e.down && s.keys[e.scancode])
      && forall k :: 0 <= k < SCANCODE_COUNT && k != e.scancode ==>
           r.keys[k] == s.keys[k] && !KeyPressed(r, k) && !KeyReleased(r, k)
  {
  }

  /** `input_key_down` reports the last key event this window delivered
      for that key: the event's own key is down exactly when the event
      says so, and every other key reads as it did before. */
  lemma KeyDownFollowsEvents(s: InputState, e: Event)
    requires s.Valid() && (e.kind == KeyDown || e.kind == KeyUp) && 0 <= e.scancode < SCANCODE_COUNT
    requires MatchesWindow(s, e)
    ensures KeyIsDown(HandleEvent(s, e), e.scancode) == e.down
    ensures forall k :: 0 <= k < SCANCODE_COUNT && k != e.scancode ==> KeyIsDown(HandleEvent(s, e), k) == KeyIsDown(s, k)
  {
  }

  /** `input_mouse_down` reports the last event for a known button; the
      other buttons and every key read as before. */
  lemma MouseDownFollowsEvents(s: InputState, e: Event)
    requires s.Valid() && (e.kind == MouseButtonDown || e.kind == MouseButtonUp) && MatchesWindow(s, e)
    requires e.button in {BUTTON_LEFT, BUTTON_MIDDLE, BUTTON_RIGHT}
    ensures e.button < BUTTON_SLOTS && MouseIsDown(HandleEvent(s, e), e.button) == e.down
    ensures forall b :: 0 <= b < BUTTON_SLOTS && b != e.button ==> MouseIsDown(HandleEvent(s, e), b) == MouseIsDown(s, b)
    ensures forall k :: 0 <= k < SCANCODE_COUNT ==> KeyIsDown(HandleEvent(s, e), k) == KeyIsDown(s, k)
  {
  }

  /** A key event whose scancode is out of range changes nothing. */
  lemma OutOfRangeKeyIgnored(s: InputState, e: Event)
    requires s.Valid() && (e.kind == KeyDown || e.kind == KeyUp)
    requires !(0 <= e.scancode < SCANCODE_COUNT)
    ensures HandleEvent(s, e) == s
  {
  }

  /** Only the left, middle and right buttons are recorded, each in its own
      slot; any other button changes nothing. */
  lemma ButtonEvents(s: InputState, e: Event)
    requires s.Valid() && (e.kind == MouseButtonDown || e.kind == MouseButtonUp) && MatchesWindow(s, e)
    ensures var r := HandleEvent(s, e);
      && (e.button in {BUTTON_LEFT, BUTTON_MIDDLE, BUTTON_RIGHT} ==>
            r.buttons == s.buttons[e.button := e.down] && r.keys == s.keys)
      && (e.button !in {BUTTON_LEFT, BUTTON_MIDDLE, BUTTON_RIGHT} ==> r == s)
  {
  }

  /** Events for other windows are dropped once a window is attached, and
      nothing is dropped while none is; window and quit events always pass
      the filter. */
  lemma WindowFilter(s: InputState, e: Event)
    requires s.Valid()
    ensures s.windowId != 0 && Filtered(e.kind) && e.windowId != s.windowId ==> HandleEvent(s, e) == s
    ensures s.windowId == 0 || !Filtered(e.kind) ==> MatchesWindow(s, e)
  {
  }
}
