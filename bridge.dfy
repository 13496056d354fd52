/** The native side of the Android lifecycle bridge: the status flags, the
    reference-counted construction, the lifecycle and input handlers that
    turn Java notifications into events, and the EGL call-ups into Java. */
module NvEvent {
  import opened AppStatus
  import opened Host
  import opened Events
  import opened Input
  import Egl

  /** The bridge's file-level state, one instance per process. */
  class Bridge {
    var status: Flags                 // the status word, as its seven flags
    var surfaceWidth: int             // stored surface size; 0 x 0 asks for a window
    var surfaceHeight: int
    var refCount: nat                 // native constructions not yet destroyed
    var hasGlobalRef: bool            // the global reference to the Java activity is held
    var appThreadExited: bool         // the application's main loop has returned
    var javaPostedQuit: bool          // the final destroy posted QUIT
    var queue: seq<Event>             // events handed to the queue since its last flush
    var lastKeyAction: bv32           // the previous mapped key event
    var lastKeyCode: int
    const keyMapping: map<int, int>   // Android key code to bridge key code
    const nullKeyCode: int            // the bridge's null key code
    const actions: AndroidActions
    const codes: MultiTouchCodes
    const host: Provider

    /** What every handler may rely on: the global reference is released
        whenever nothing is constructed, QUIT is posted only by a final
        destroy that then waited for the main loop, and a constructed bridge
        is Running. */
    ghost predicate Valid()
      reads this
    {
      && (refCount == 0 ==> !hasGlobalRef)
      && (javaPostedQuit ==> refCount == 0 && appThreadExited)
      && (refCount > 0 ==> status.running)
    }

    constructor (keyMapping: map<int, int>, nullKeyCode: int, actions: AndroidActions, codes: MultiTouchCodes, host: Provider)
      ensures Valid()
      ensures this.keyMapping == keyMapping && this.nullKeyCode == nullKeyCode && this.actions == actions && this.codes == codes && this.host == host
      ensures status == NoFlags && surfaceWidth == 0 && surfaceHeight == 0 && refCount == 0
      ensures !hasGlobalRef && !appThreadExited && !javaPostedQuit && queue == []
      ensures lastKeyAction == 0 && lastKeyCode == 0
    {
      status := NoFlags;
      surfaceWidth, surfaceHeight := 0, 0;
      refCount := 0;
      hasGlobalRef, appThreadExited, javaPostedQuit := false, false, false;
      queue := [];
      lastKeyAction, lastKeyCode := 0, 0;
      this.keyMapping := keyMapping;
      this.nullKeyCode := nullKeyCode;
      this.actions := actions;
      this.codes := codes;
      this.host := host;
    }

    // Status flags

    method ZeroAppFlags()
      modifies this`status
      ensures status == NoFlags
    {
      status := NoFlags;
    }

    method SetAppFlag(f: Flag)
      modifies this`status
      ensures status == With(old(status), f, true)
    {
      status := With(status, f, true);
    }

    method ClearAppFlag(f: Flag)
      modifies this`status
      ensures status == With(old(status), f, false)
    {
      status := With(status, f, false);
    }

    /** NVEventStatusIsInteractable. */
    predicate IsInteractable()
      reads this
    {
      Interactable(status)
    }

    // The event queue

    /** `q` after `ev` is inserted: nothing is inserted once the main loop
        has returned. */
    function AfterInsert(q: seq<Event>, ev: Event): seq<Event>
      reads this
    {
      if appThreadExited then q else q + [ev]
    }

    method Insert(ev: Event)
      modifies this`queue
      ensures queue == AfterInsert(old(queue), ev)
    {
      if !appThreadExited {
        queue := queue + [ev];
      }
    }

    /** Insert and wait for the main loop to handle the event; `handled` is
        what the main loop reports back. */
    method InsertBlocking(ev: Event, handled: bool) returns (ok: bool)
      modifies this`queue
      ensures queue == AfterInsert(old(queue), ev)
      ensures ok == (!appThreadExited && handled)
    {
      if !appThreadExited {
        queue := queue + [ev];
        ok := handled;
      } else {
        ok := false;
      }
    }

    method Flush()
      modifies this`queue
      ensures queue == []
    {
      queue := [];
    }

    // EGL call-ups

    method InitEGL() returns (ok: bool)
      modifies this`status, host
      ensures var a := Egl.Try(old(status), HostCall.InitEGL, EglInitialized, old(host.script));
              ok == a.ok && status == a.status
              && host.log == old(host.log) + a.calls && host.script == Consume(old(host.script), 1)
    {
      ok := host.CallBoolean(HostCall.InitEGL);
      if ok {
        SetAppFlag(EglInitialized);
      }
    }

    /** Clears the three EGL flags before calling up, whatever the answer. */
    method CleanupEGL() returns (ok: bool)
      modifies this`status, host
      ensures status == old(status).(eglBound := false, eglHasSurface := false, eglInitialized := false)
      ensures ok == Answer(old(host.script))
      ensures host.log == old(host.log) + [HostCall.CleanupEGL] && host.script == Consume(old(host.script), 1)
    {
      ClearAppFlag(EglBound);
      ClearAppFlag(EglHasSurface);
      ClearAppFlag(EglInitialized);
      ok := host.CallBoolean(HostCall.CleanupEGL);
    }

    method CreateSurfaceEGL() returns (ok: bool)
      modifies this`status, host
      ensures var a := Egl.Try(old(status), HostCall.CreateSurfaceEGL, EglHasSurface, old(host.script));
              ok == a.ok && status == a.status
              && host.log == old(host.log) + a.calls && host.script == Consume(old(host.script), 1)
    {
      ok := host.CallBoolean(HostCall.CreateSurfaceEGL);
      if ok {
        SetAppFlag(EglHasSurface);
      }
    }

    method CreateOffScreenSurfaceEGL(width: int, height: int) returns (ok: bool)
      modifies this`status, host
      ensures var a := Egl.Try(old(status), HostCall.CreateOffScreenSurfaceEGL(width, height), EglHasSurface, old(host.script));
              ok == a.ok && status == a.status
              && host.log == old(host.log) + a.calls && host.script == Consume(old(host.script), 1)
    {
      ok := host.CallBoolean(HostCall.CreateOffScreenSurfaceEGL(width, height));
      if ok {
        SetAppFlag(EglHasSurface);
      }
    }

    /** Without a surface there is nothing to destroy. Otherwise a bound
        context is unbound first, and HasSurface is cleared before the
        destroy call-up, whatever its answer. */
    method DestroySurfaceEGL() returns (ok: bool)
      modifies this`status, host
      ensures !old(status.eglHasSurface) ==>
              ok && status == old(status) && host.log == old(host.log) && host.script == old(host.script)
      ensures old(status.eglHasSurface) ==>
              var calls := (if old(status.eglBound) then [HostCall.UnbindSurfaceAndContextEGL] else [])
                           + [HostCall.DestroySurfaceEGL];
              && status == old(status).(eglBound := false, eglHasSurface := false)
              && host.log == old(host.log) + calls
              && host.script == Consume(old(host.script), |calls|)
              && ok == Answer(Consume(old(host.script), |calls| - 1))
    {
      if !status.eglHasSurface {
        return true;
      }
      ghost var before: seq<HostCall> := [];
      if status.eglBound {
        var _ := UnbindSurfaceAndContextEGL();
        before := [HostCall.UnbindSurfaceAndContextEGL];
      }
      assert host.script == Consume(old(host.script), |before|);
      ClearAppFlag(EglHasSurface);
      ok := host.CallBoolean(HostCall.DestroySurfaceEGL);
      ConsumeTwice(old(host.script), |before|, 1);
    }

    method BindSurfaceAndContextEGL() returns (ok: bool)
      modifies this`status, host
      ensures var a := Egl.Try(old(status), HostCall.BindSurfaceAndContextEGL, EglBound, old(host.script));
              ok == a.ok && status == a.status
              && host.log == old(host.log) + a.calls && host.script == Consume(old(host.script), 1)
    {
      ok := host.CallBoolean(HostCall.BindSurfaceAndContextEGL);
      if ok {
        SetAppFlag(EglBound);
      }
    }

    /** Clears Bound before calling up, whatever the answer. */
    method UnbindSurfaceAndContextEGL() returns (ok: bool)
      modifies this`status, host
      ensures status == old(status).(eglBound := false)
      ensures ok == Answer(old(host.script))
      ensures host.log == old(host.log) + [HostCall.UnbindSurfaceAndContextEGL]
      ensures host.script == Consume(old(host.script), 1)
    {
      ClearAppFlag(EglBound);
      ok := host.CallBoolean(HostCall.UnbindSurfaceAndContextEGL);
    }

    method SwapBuffersEGL() returns (ok: bool)
      modifies host
      ensures ok == Answer(old(host.script))
      ensures host.log == old(host.log) + [HostCall.SwapBuffersEGL]
      ensures host.script == Consume(old(host.script), 1)
    {
      ok := host.CallBoolean(HostCall.SwapBuffersEGL);
    }

    /** NVEventReadyToRenderEGL, step by step; it does what Egl.ReadyToRender
        says, on the flags, the stored size and the Java side's answers. */
    method ReadyToRenderEGL(allocate: bool) returns (ok: bool)
      modifies this`status, host
      ensures var r := Egl.ReadyToRender(old(status), allocate, surfaceWidth, surfaceHeight, old(host.script));
              ok == r.ok && status == r.status
              && host.log == old(host.log) + r.calls
              && host.script == Consume(old(host.script), |r.calls|)
    {
      if !status.eglBound {
        if !allocate {
          return false;
        }
        ok := AllocateEGL();
        return;
      }
      return true;
    }

    /** The part of NVEventReadyToRenderEGL that runs when the context is
        not bound and allocation is allowed: make sure of a surface, then bind
        it; it does what Egl.Allocate says. */
    method AllocateEGL() returns (ok: bool)
      modifies this`status, host
      ensures var r := Egl.Allocate(old(status), surfaceWidth, surfaceHeight, old(host.script));
              ok == r.ok && status == r.status
              && host.log == old(host.log) + r.calls
              && host.script == Consume(old(host.script), |r.calls|)
    {
      ghost var a := Egl.EnsureSurface(status, surfaceWidth, surfaceHeight, host.script);
      ok := EnsureSurfaceEGL();
      if !ok {
        return;
      }
      ghost var t := Egl.Try(status, HostCall.BindSurfaceAndContextEGL, EglBound, host.script);
      ok := BindSurfaceAndContextEGL();
      ConsumeTwice(old(host.script), |a.calls|, 1);
      LogTwice(old(host.log), a.calls, t.calls);
    }

    /** The part of NVEventReadyToRenderEGL that makes sure of a surface,
        initialising EGL first if needed; it does what Egl.EnsureSurface says. */
    method EnsureSurfaceEGL() returns (ok: bool)
      modifies this`status, host
      ensures var a := Egl.EnsureSurface(old(status), surfaceWidth, surfaceHeight, old(host.script));
              ok == a.ok && status == a.status
              && host.log == old(host.log) + a.calls
              && host.script == Consume(old(host.script), |a.calls|)
    {
      if status.eglHasSurface {
        return true;
      }
      ghost var i := Egl.EnsureInitialized(status, host.script);
      ok := EnsureInitializedEGL();
      if !ok {
        assert Egl.EnsureSurface(old(status), surfaceWidth, surfaceHeight, old(host.script)) == i;
        return;
      }
      ghost var t := Egl.Try(status, Egl.SurfaceCall(surfaceWidth, surfaceHeight), EglHasSurface, host.script);
      ok := CreateIntendedSurfaceEGL();
      ConsumeTwice(old(host.script), |i.calls|, 1);
      assert Egl.EnsureSurface(old(status), surfaceWidth, surfaceHeight, old(host.script)) == Egl.Then(i, t);
      assert Egl.Then(i, t).calls == i.calls + t.calls;
      assert host.log == old(host.log) + Egl.Then(i, t).calls;
    }

    /** The part of NVEventReadyToRenderEGL that creates the surface the
        stored size asks for: a window surface for 0 x 0, an off-screen one
        of the stored size otherwise. */
    method CreateIntendedSurfaceEGL() returns (ok: bool)
      modifies this`status, host
      ensures var t := Egl.Try(old(status), Egl.SurfaceCall(surfaceWidth, surfaceHeight), EglHasSurface, old(host.script));
              ok == t.ok && status == t.status
              && host.log == old(host.log) + t.calls && host.script == Consume(old(host.script), 1)
    {
      if Egl.IsPreparedForWindow(surfaceWidth, surfaceHeight) {
        ok := CreateSurfaceEGL();
      } else {
        ok := CreateOffScreenSurfaceEGL(surfaceWidth, surfaceHeight);
      }
    }

    /** The part of NVEventReadyToRenderEGL that initialises EGL unless that
        is done; it does what Egl.EnsureInitialized says. */
    method EnsureInitializedEGL() returns (ok: bool)
      modifies this`status, host
      ensures var i := Egl.EnsureInitialized(old(status), old(host.script));
              ok == i.ok && status == i.status
              && host.log == old(host.log) + i.calls
              && host.script == Consume(old(host.script), |i.calls|)
    {
      if status.eglInitialized {
        return true;
      }
      ok := InitEGL();
    }

    // Surface intent

    method PrepareWindowSurface()
      modifies this`surfaceWidth, this`surfaceHeight
      ensures Egl.IsPreparedForWindow(surfaceWidth, surfaceHeight)
      ensures surfaceWidth == 0 && surfaceHeight == 0
    {
      surfaceWidth, surfaceHeight := 0, 0;
    }

    method PrepareOffScreenSurface(width: int, height: int)
      modifies this`surfaceWidth, this`surfaceHeight
      ensures surfaceWidth == width && surfaceHeight == height
    {
      surfaceWidth, surfaceHeight := width, height;
    }

    // Construction and destruction

    /** onCreateNative. `refOk` is whether the global reference could be
        made and `appInitOk` whether the application's init returned 0. */
    method OnCreate(refOk: bool, appInitOk: bool) returns (ok: bool)
      requires Valid()
      modifies this`refCount, this`status, this`hasGlobalRef, this`queue, this`javaPostedQuit, this`appThreadExited
      ensures Valid()
      ensures old(refCount) != 0 ==>
              && ok && refCount == old(refCount) + 1
              && status == old(status) && hasGlobalRef == old(hasGlobalRef) && queue == old(queue)
              && javaPostedQuit == old(javaPostedQuit) && appThreadExited == old(appThreadExited)
      ensures old(refCount) == 0 && !appInitOk ==>
              && !ok && refCount == 0 && status == NoFlags && !hasGlobalRef && queue == []
              && !javaPostedQuit && appThreadExited == old(appThreadExited)
      ensures old(refCount) == 0 && appInitOk ==>
              && ok && refCount == 1 && status == NoFlags.(running := true) && hasGlobalRef == refOk
              && queue == [] && !javaPostedQuit && !appThreadExited
    {
      if refCount != 0 {
        refCount := refCount + 1;
        return true;
      }
      if hasGlobalRef {
        // a leftover instance would be destroyed here, under the lock that
        // is already held; Valid() rules this out
        assert false;
      }
      ZeroAppFlags();
      hasGlobalRef := refOk;
      queue := [];
      javaPostedQuit := false;
      if !appInitOk {
        hasGlobalRef := false;
        return false;
      }
      appThreadExited := false;
      SetAppFlag(Running);
      refCount := refCount + 1;
      ok := true;
    }

    /** The tail of the main-loop thread, once the application's main has
        returned: from then on nothing is inserted, and unless the return was
        caused by a posted QUIT, the activity is asked to finish. */
    method MainLoopExited()
      modifies this`appThreadExited, host`log
      ensures appThreadExited
      ensures host.log == old(host.log) + (if javaPostedQuit then [] else [HostCall.Finish])
      ensures old(Valid()) ==> Valid()
    {
      appThreadExited := true;
      if !javaPostedQuit {
        host.CallVoid(HostCall.Finish);
      }
    }

    /** onDestroyNative. The final destroy of a running main loop flushes the
        queue, clears Running, posts QUIT and waits for the main loop to
        return; the global reference is released in every final destroy. */
    method OnDestroy() returns (ok: bool)
      requires Valid()
      modifies this`refCount, this`status, this`hasGlobalRef, this`queue, this`javaPostedQuit, this`appThreadExited
      modifies host`log
      ensures Valid()
      ensures host.log == old(host.log)
      ensures old(refCount) == 0 ==> !ok && unchanged(this)
      ensures old(refCount) > 1 ==>
              && ok && refCount == old(refCount) - 1
              && status == old(status) && hasGlobalRef == old(hasGlobalRef) && queue == old(queue)
              && javaPostedQuit == old(javaPostedQuit) && appThreadExited == old(appThreadExited)
      ensures old(refCount) == 1 ==> ok && refCount == 0 && !hasGlobalRef && appThreadExited
      ensures old(refCount) == 1 && !old(appThreadExited) ==>
              status == old(status).(running := false) && queue == [Quit] && javaPostedQuit
      ensures old(refCount) == 1 && old(appThreadExited) ==>
              status == old(status) && queue == old(queue) && javaPostedQuit == old(javaPostedQuit)
    {
      if refCount == 0 {
        return false;
      }
      refCount := refCount - 1;
      if refCount != 0 {
        return true;
      }
      if !appThreadExited {
        Flush();
        ClearAppFlag(Running);
        javaPostedQuit := true;
        Insert(Quit);
        MainLoopExited();
      }
      hasGlobalRef := false;
      ok := true;
    }

    // Lifecycle notifications: each updates the flags, then inserts one
    // event and waits for the main loop to handle it.

    method OnStart(handled: bool) returns (ok: bool)
      modifies this`queue
      ensures queue == AfterInsert(old(queue), Start)
      ensures ok == (!appThreadExited && handled)
    {
      ok := InsertBlocking(Start, handled);
    }

    method OnRestart(handled: bool) returns (ok: bool)
      modifies this`queue
      ensures queue == AfterInsert(old(queue), Restart)
      ensures ok == (!appThreadExited && handled)
    {
      ok := InsertBlocking(Restart, handled);
    }

    method OnResume(handled: bool) returns (ok: bool)
      requires Valid()
      modifies this`status, this`queue
      ensures Valid()
      ensures status == old(status).(active := true)
      ensures queue == AfterInsert(old(queue), Resume)
      ensures ok == (!appThreadExited && handled)
    {
      SetAppFlag(Active);
      ok := InsertBlocking(Resume, handled);
    }

    method OnSurfaceCreated(width: int, height: int, density: int, handled: bool) returns (ok: bool)
      requires Valid()
      modifies this`status, this`queue
      ensures Valid()
      ensures status == old(status).(hasRealSurface := width > 0 && height > 0)
      ensures queue == AfterInsert(old(queue), SurfaceCreated(width, height, density))
      ensures ok == (!appThreadExited && handled)
    {
      if width > 0 && height > 0 {
        SetAppFlag(HasRealSurface);
      } else {
        ClearAppFlag(HasRealSurface);
      }
      ok := InsertBlocking(SurfaceCreated(width, height, density), handled);
    }

    method OnFocusChanged(focused: bool, handled: bool) returns (ok: bool)
      requires Valid()
      modifies this`status, this`queue
      ensures Valid()
      ensures status == old(status).(focused := focused)
      ensures queue == AfterInsert(old(queue), if focused then FocusGained else FocusLost)
      ensures ok == (!appThreadExited && handled)
    {
      if focused {
        SetAppFlag(Focused);
      } else {
        ClearAppFlag(Focused);
      }
      ok := InsertBlocking(if focused then FocusGained else FocusLost, handled);
    }

    method OnSurfaceChanged(width: int, height: int, density: int, handled: bool) returns (ok: bool)
      requires Valid()
      modifies this`status, this`queue
      ensures Valid()
      ensures status == old(status).(hasRealSurface := width * height != 0)
      ensures queue == AfterInsert(old(queue), SurfaceSize(width, height, density))
      ensures ok == (!appThreadExited && handled)
    {
      if width * height != 0 {
        SetAppFlag(HasRealSurface);
      } else {
        ClearAppFlag(HasRealSurface);
      }
      ok := InsertBlocking(SurfaceSize(width, height, density), handled);
    }

    method OnSurfaceDestroyed(handled: bool) returns (ok: bool)
      requires Valid()
      modifies this`status, this`queue
      ensures Valid()
      ensures status == old(status).(hasRealSurface := false)
      ensures queue == AfterInsert(old(queue), SurfaceDestroyed)
      ensures ok == (!appThreadExited && handled)
    {
      ClearAppFlag(HasRealSurface);
      ok := InsertBlocking(SurfaceDestroyed, handled);
    }

    /** Pending events are dropped, so PAUSE is the only queued event unless
        the main loop has returned. */
    method OnPause(handled: bool) returns (ok: bool)
      requires Valid()
      modifies this`status, this`queue
      ensures Valid()
      ensures status == old(status).(active := false)
      ensures queue == AfterInsert([], Pause)
      ensures ok == (!appThreadExited && handled)
    {
      Flush();
      ClearAppFlag(Active);
      ok := InsertBlocking(Pause, handled);
    }

    method OnStop(handled: bool) returns (ok: bool)
      modifies this`queue
      ensures queue == AfterInsert(old(queue), Stop)
      ensures ok == (!appThreadExited && handled)
    {
      ok := InsertBlocking(Stop, handled);
    }

    // Events posted by the application and the Java side

    /** postUserEvent: a non-blocking post always reports true. */
    method PostUserEvent(u0: int, u1: int, u2: int, u3: int, blocking: bool, handled: bool) returns (ok: bool)
      modifies this`queue
      ensures queue == AfterInsert(old(queue), User(u0, u1, u2, u3))
      ensures ok == (!blocking || (!appThreadExited && handled))
    {
      if blocking {
        ok := InsertBlocking(User(u0, u1, u2, u3), handled);
      } else {
        Insert(User(u0, u1, u2, u3));
        ok := true;
      }
    }

    method PostMwmEvent(callback: nat, blocking: bool, handled: bool)
      modifies this`queue
      ensures queue == AfterInsert(old(queue), Mwm(callback))
    {
      if blocking {
        var _ := InsertBlocking(Mwm(callback), handled);
      } else {
        Insert(Mwm(callback));
      }
    }

    /** NVEventRepaint: a user event whose first word is 1. */
    method Repaint() returns (ok: bool)
      modifies this`queue
      ensures ok
      ensures queue == AfterInsert(old(queue), User(1, 0, 0, 0))
    {
      Insert(User(1, 0, 0, 0));
      ok := true;
    }

    /** Clears Focused, so that the application stops rendering, and tells
        the Java side. */
    method ReportUnsupported()
      requires Valid()
      modifies this`status, host`log
      ensures Valid()
      ensures status == old(status).(focused := false)
      ensures host.log == old(host.log) + [HostCall.ReportUnsupported]
    {
      ClearAppFlag(Focused);
      host.CallVoid(HostCall.ReportUnsupported);
    }

    method OnRenderingInitialized()
      modifies host`log
      ensures host.log == old(host.log) + [HostCall.OnRenderingInitialized]
    {
      host.CallVoid(HostCall.OnRenderingInitialized);
    }

    // Input

    /** NVEventMultiTouchEvent: one multi-touch event with the encoded
        action and the coordinates unchanged; always reports true. */
    method MultiTouchEvent(action: bv32, hasFirst: bool, hasSecond: bool, x1: int, y1: int, x2: int, y2: int)
      returns (ok: bool)
      modifies this`queue
      ensures ok
      ensures queue == AfterInsert(old(queue),
                         MultiTouch(MultiTouchAction(action, actions, codes, hasFirst, hasSecond), x1, y1, x2, y2))
    {
      var ev := MultiTouch(MultiTouchAction(action, actions, codes, hasFirst, hasSecond), x1, y1, x2, y2);
      Insert(ev);
      ok := true;
    }

    /** NVEventKeyEvent. A mapped key is forwarded, blocking, unless it is
        the null code or repeats the previous mapped key event, and is then
        remembered; a nonzero character is forwarded, non-blocking, for any
        action but up. The result is the forwarded key's handling. */
    method KeyEvent(action: bv32, keycode: int, unichar: int, handled: bool) returns (ok: bool)
      modifies this`queue, this`lastKeyAction, this`lastKeyCode
      ensures var mapped := keycode in keyMapping;
              var code := if mapped then keyMapping[keycode] else nullKeyCode;
              var forward := mapped && ForwardsKey(KeyMemory(old(lastKeyAction), old(lastKeyCode)), nullKeyCode, action, code);
              var keyEvent := Key(if action == actions.up then KeyUp else KeyDown, code);
              var afterKey := if forward then AfterInsert(old(queue), keyEvent) else old(queue);
              && queue == (if unichar != 0 && action != actions.up then AfterInsert(afterKey, Char(unichar)) else afterKey)
              && ok == (forward && !appThreadExited && handled)
              && (mapped ==> lastKeyAction == action && lastKeyCode == code)
              && (!mapped ==> lastKeyAction == old(lastKeyAction) && lastKeyCode == old(lastKeyCode))
    {
      ok := false;
      if keycode in keyMapping {
        var code := keyMapping[keycode];
        if code != nullKeyCode && (code != lastKeyCode || action != lastKeyAction) {
          ok := InsertBlocking(Key(if action == actions.up then KeyUp else KeyDown, code), handled);
        }
        lastKeyAction, lastKeyCode := action, code;
      }
      if unichar != 0 && actions.up != action {
        Insert(Char(unichar));
      }
    }
  }
}
