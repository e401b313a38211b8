/** The window flags of `platform/window.c`: the close, minimised and
    resized flags that the application loop and the renderer consult, and
    how SDL events and window creation and destruction change them. SDL
    itself is outside the model: what it would report (the window handle,
    its id, its size in pixels) is passed in. */
module Window {
  import opened Common
  import Input

  datatype WindowContext = WindowContext(
    handle: bool,     // the SDL window pointer is non-null
    windowId: u32,
    width: u32, height: u32,
    resized: bool, minimized: bool, shouldClose: bool)

  /** The C conversion `(u32)x` of an `int`: reduction modulo 2^32. */
  function ToU32(x: int): (r: u32)
    ensures 0 <= x <= U32_MAX ==> r == x
    ensures (r - x) % (U32_MAX + 1) == 0
  {
    x % (U32_MAX + 1)
  }

  /** `window_update_size`, given the size in pixels SDL reports. */
  function UpdateSize(ctx: WindowContext, pixelWidth: int, pixelHeight: int): (r: WindowContext)
    ensures r.minimized <==> pixelWidth == 0 || pixelHeight == 0
    ensures r.width == ToU32(pixelWidth) && r.height == ToU32(pixelHeight)
    ensures r.(width := ctx.width, height := ctx.height, minimized := ctx.minimized) == ctx
  {
    ctx.(width := ToU32(pixelWidth), height := ToU32(pixelHeight), minimized := pixelWidth == 0 || pixelHeight == 0)
  }

  /** An event as the poll loop sees it: the event, and the window's size
      in pixels at the moment it is handled. */
  datatype Polled = Polled(event: Input.Event, pixelWidth: int, pixelHeight: int)

  predicate IsWindowEvent(k: Input.EventType) {
    k == Input.WindowCloseRequested || k == Input.WindowMinimized || k == Input.WindowRestored
    || k == Input.WindowPixelSizeChanged || k == Input.WindowResized
  }

  /** The window-flag half of `window_handle_event`. A quit closes the
      window whatever its id; the window events act only when they name this
      window. */
  function HandleWindowEvent(ctx: WindowContext, p: Polled): (r: WindowContext)
    ensures r.handle == ctx.handle && r.windowId == ctx.windowId
    ensures ctx.shouldClose ==> r.shouldClose
    ensures ctx.resized ==> r.resized
  {
    var e := p.event;
    var mine := e.windowId == ctx.windowId;
    match e.kind
    case QuitEvent => ctx.(shouldClose := true)
    case WindowCloseRequested => if mine then ctx.(shouldClose := true) else ctx
    case WindowMinimized => if mine then ctx.(minimized := true) else ctx
    case WindowRestored => if mine then ctx.(minimized := false) else ctx
    case WindowPixelSizeChanged =>
      if mine then UpdateSize(ctx, p.pixelWidth, p.pixelHeight).(resized := true) else ctx
    case WindowResized =>
      if mine then UpdateSize(ctx, p.pixelWidth, p.pixelHeight).(resized := true) else ctx
    case _ => ctx
  }

  /** `window_handle_event`: the window flags, then the event is passed on
      to the input state. Each half ignores the other's events: key, button
      and motion events leave the window flags alone, and window and quit
      events leave the key and button state alone. */
  function HandleEvent(ctx: WindowContext, input: Input.InputState, p: Polled): (r: (WindowContext, Input.InputState))
    requires input.Valid()
    ensures r.1.Valid()
    ensures Input.Filtered(p.event.kind) ==> r.0 == ctx
    ensures IsWindowEvent(p.event.kind) || p.event.kind == Input.QuitEvent ==> r.1 == input
  {
    (HandleWindowEvent(ctx, p), Input.HandleEvent(input, p.event))
  }

  /** `window_poll_events`: every pending event, in order. */
  function PollEvents(ctx: WindowContext, input: Input.InputState, events: seq<Polled>): (r: (WindowContext, Input.InputState))
    requires input.Valid()
    ensures r.1.Valid() && r.0.handle == ctx.handle && r.0.windowId == ctx.windowId
    decreases |events|
  {
    if events == [] then (ctx, input)
    else
      var (c, i) := HandleEvent(ctx, input, events[0]);
      PollEvents(c, i, events[1..])
  }

  /** The configuration fields `window_create` reads. */
  datatype WindowConfig = WindowConfig(width: u32, height: u32, resizable: bool, fullscreen: bool)

  /** What SDL answers while creating a window: whether a window came back,
      its id and its size in pixels. */
  datatype Platform = Platform(created: bool, id: u32, pixelWidth: int, pixelHeight: int)

  /** `window_create`. On failure only the handle is written (null); on
      success every flag is cleared, including the minimised flag the size
      query may have set. */
  function Create(config: WindowConfig, ctx: WindowContext, sdl: Platform): (r: (Status, WindowContext))
    ensures r.0 == Ok <==> sdl.created
    ensures r.0 != Ok ==> r.0 == ErrorWindow && r.1 == ctx.(handle := false)
    ensures r.0 == Ok ==> r.1.handle && r.1.windowId == sdl.id && !r.1.resized && !r.1.minimized && !r.1.shouldClose
    ensures r.0 == Ok ==> r.1.width == ToU32(sdl.pixelWidth) && r.1.height == ToU32(sdl.pixelHeight)
  {
    if !sdl.created then (ErrorWindow, ctx.(handle := false))
    else
      var c0 := ctx.(handle := true, windowId := sdl.id, width := config.width, height := config.height);
      var c1 := UpdateSize(c0, sdl.pixelWidth, sdl.pixelHeight);
      (Ok, c1.(resized := false, minimized := false, shouldClose := false))
  }

  /** `window_destroy`. */
  function Destroy(ctx: WindowContext): (r: WindowContext)
    ensures !r.handle
    ensures ctx.handle ==> r.shouldClose
    ensures !ctx.handle ==> r == ctx
    ensures r.(handle := ctx.handle, shouldClose := ctx.shouldClose) == ctx
  {
    if ctx.handle then ctx.(handle := false, shouldClose := true) else ctx
  }

  /** `window_get_framebuffer_size`: the pixel size SDL reports, converted
      to `u32`. */
  function FramebufferSize(pixelWidth: int, pixelHeight: int): (r: (u32, u32))
    ensures 0 <= pixelWidth <= U32_MAX && 0 <= pixelHeight <= U32_MAX ==> r == (pixelWidth, pixelHeight)
  {
    (ToU32(pixelWidth), ToU32(pixelHeight))
  }

  /** `window_reset_resized`. */
  function ResetResized(ctx: WindowContext): (r: WindowContext)
    ensures !r.resized && r.(resized := ctx.resized) == ctx
  {
    ctx.(resized := false)
  }

  /** A resize event for this window sets the resized flag, records the
      pixel size, and marks the window minimised exactly when that size has
      no area; an event of any window kind for another window leaves the
      flags untouched. */
  lemma ResizeEvents(ctx: WindowContext, p: Polled)
    requires IsWindowEvent(p.event.kind)
    ensures var r := HandleWindowEvent(ctx, p);
      && (p.event.windowId != ctx.windowId ==> r == ctx)
      && (p.event.windowId == ctx.windowId && p.event.kind in {Input.WindowPixelSizeChanged, Input.WindowResized} ==>
            r.resized && (r.minimized <==> p.pixelWidth == 0 || p.pixelHeight == 0)
            && r.width == ToU32(p.pixelWidth) && r.height == ToU32(p.pixelHeight) && r.shouldClose == ctx.shouldClose)
  {
  }

  /** Minimising and then restoring this window leaves it not minimised,
      whatever it was before; other flags are untouched. */
  lemma MinimizeRestore(ctx: WindowContext, a: Polled, b: Polled)
    requires a.event.kind == Input.WindowMinimized && b.event.kind == Input.WindowRestored
    requires a.event.windowId == ctx.windowId == b.event.windowId
    ensures var r := HandleWindowEvent(HandleWindowEvent(ctx, a), b);
      r == ctx.(minimized := false)
  {
  }

  /** Once set, the close flag stays set while events are polled, and a
      quit event anywhere in the batch sets it; so does a close request for
      this window. */
  lemma {:induction false} PollCloses(ctx: WindowContext, input: Input.InputState, events: seq<Polled>)
    requires input.Valid()
    ensures var r := PollEvents(ctx, input, events);
      && (ctx.shouldClose ==> r.0.shouldClose)
      && ((exists k :: 0 <= k < |events| && (events[k].event.kind == Input.QuitEvent
             || (events[k].event.kind == Input.WindowCloseRequested && events[k].event.windowId == ctx.windowId)))
           ==> r.0.shouldClose)
    decreases |events|
  {
    if events != [] {
      var (c, i) := HandleEvent(ctx, input, events[0]);
      PollCloses(c, i, events[1..]);
      assert PollEvents(ctx, input, events) == PollEvents(c, i, events[1..]);
      if exists k :: 0 <= k < |events| && (events[k].event.kind == Input.QuitEvent
           || (events[k].event.kind == Input.WindowCloseRequested && events[k].event.windowId == ctx.windowId)) {
        var k :| 0 <= k < |events| && (events[k].event.kind == Input.QuitEvent
           || (events[k].event.kind == Input.WindowCloseRequested && events[k].event.windowId == ctx.windowId));
        if k > 0 {
          assert events[1..][k - 1] == events[k];
        }
      }
    }
  }

  /** Destroying twice is destroying once, and a destroyed window asks to
      close. */
  lemma DestroyIdempotent(ctx: WindowContext)
    ensures Destroy(Destroy(ctx)) == Destroy(ctx)
    ensures ctx.handle || ctx.shouldClose ==> Destroy(ctx).shouldClose
  {
  }

  /** A freshly created window is neither resized, minimised nor closing,
      and the resized flag is set only by a resize event naming it;
      resetting it clears it again. */
  lemma CreateThenResize(config: WindowConfig, ctx: WindowContext, sdl: Platform, p: Polled)
    requires sdl.created && p.event.windowId == sdl.id
    requires p.event.kind == Input.WindowResized
    ensures var c := Create(config, ctx, sdl).1;
      var r := HandleWindowEvent(c, p);
      && r.resized && !r.shouldClose && ResetResized(r).(width := c.width, height := c.height, minimized := c.minimized) == c
  {
  }
}
