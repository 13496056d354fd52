/** The events the bridge hands to the application's main loop. */
module Events {

  /** The nineteen event kinds. */
  datatype EventKind =
    | KeyKind | CharKind | TouchKind | MultiTouchKind | AccelKind
    | StartKind | RestartKind | ResumeKind | FocusGainedKind
    | SurfaceCreatedKind | SurfaceSizeKind | SurfaceDestroyedKind
    | FocusLostKind | PauseKind | StopKind | QuitKind
    | UserKind | LongClickKind | MwmKind

  datatype KeyAction = KeyUp | KeyDown

  /** An event with its kind-specific payload. Accelerometer, single-touch and
      long-click events are not produced by the modelled code and have no
      payload here. */
  datatype Event =
    | Key(action: KeyAction, code: int)
    | Char(unichar: int)
    | Touch
    | MultiTouch(multiAction: bv32, x1: int, y1: int, x2: int, y2: int)
    | Accel
    | Start
    | Restart
    | Resume
    | FocusGained
    | SurfaceCreated(width: int, height: int, density: int)
    | SurfaceSize(width: int, height: int, density: int)
    | SurfaceDestroyed
    | FocusLost
    | Pause
    | Stop
    | Quit
    | User(u0: int, u1: int, u2: int, u3: int)
    | LongClick
    | Mwm(callback: nat)  // the opaque function pointer, as a handle

  /** The printable name of an event kind. Every kind has its own name, so the
      fallback name for an unknown kind is never produced. */
  function EventName(k: EventKind): (name: string)
    ensures |name| > 9 && name[..9] == "NV_EVENT_"
  {
    match k
    case KeyKind => "NV_EVENT_KEY"
    case CharKind => "NV_EVENT_CHAR"
    case TouchKind => "NV_EVENT_TOUCH"
    case MultiTouchKind => "NV_EVENT_MULTITOUCH"
    case AccelKind => "NV_EVENT_ACCEL"
    case StartKind => "NV_EVENT_START"
    case RestartKind => "NV_EVENT_RESTART"
    case ResumeKind => "NV_EVENT_RESUME"
    case FocusGainedKind => "NV_EVENT_FOCUS_GAINED"
    case SurfaceCreatedKind => "NV_EVENT_SURFACE_CREATED"
    case SurfaceSizeKind => "NV_EVENT_SURFACE_SIZE"
    case SurfaceDestroyedKind => "NV_EVENT_SURFACE_DESTROYED"
    case FocusLostKind => "NV_EVENT_FOCUS_LOST"
    case PauseKind => "NV_EVENT_PAUSE"
    case StopKind => "NV_EVENT_STOP"
    case QuitKind => "NV_EVENT_QUIT"
    case UserKind => "NV_EVENT_USER"
    case LongClickKind => "NV_EVENT_LONG_CLICK"
    case MwmKind => "NV_EVENT_MWM"
  }

  /** Distinct kinds have distinct names. */
  lemma EventNameInjective(a: EventKind, b: EventKind)
    requires EventName(a) == EventName(b)
    ensures a == b
  {
  }
}
