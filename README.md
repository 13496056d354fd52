# NvEvent lifecycle bridge, modelled in Dafny

This project models the native side of the Android lifecycle bridge
(`android/jni/nv_event/nv_event.cpp`). Java notifies the native code of
lifecycle changes: create, start, resume, focus, surface created or changed
or destroyed, pause, stop and destroy. The native code records them in a
status word and turns each into an event for the application's main loop.
It also calls up into Java to set up and tear down EGL.

The files:

- `app_status.dfy` (module `AppStatus`): the 32-bit status word. It has four
  lifecycle bits (Running, Active, Focused, HasRealSurface) and three EGL bits
  (Initialized, HasSurface, Bound).
  - Set, clear, zero and the queries are modelled on `bv32`.
  - The same word is also seen as seven named booleans (`Flags`).
  - `RunCommutes` proves that any sequence of set, clear and zero operations
    on the word is the same sequence of updates on the booleans.
- `host.dfy` (module `Host`): the Java methods the native code calls up into.
  - A `Provider` answers each boolean call-up from a script of booleans and
    logs every call.
  - An exhausted script answers false, as a call-up without a JNI
    environment does.
  - Every property of a caller therefore holds for every behaviour of the
    Java side.
- `events.dfy` (module `Events`): the nineteen event kinds, their payloads
  and their printable names.
- `input.dfy` (module `Input`): the multi-touch action encoding, with the
  read-back lemmas, and the key-repeat decision.
- `egl.dfy` (module `Egl`): lazy EGL set-up (`NVEventReadyToRenderEGL`) as
  a function of the flags, the stored surface size and the Java side's
  answers, together with what it guarantees. It also gives a second,
  independent definition: a plan of steps run until the first failure.
  - The two definitions are proved equal.
  - A retry after a failure provably resumes where the failed attempt
    stopped.
- `bridge.dfy` (module `NvEvent`): class `Bridge` holds the file's mutable
  state: the flags, the stored surface size, the reference count, the
  thread flags, the queue and the key-repeat statics.
  - Every handler and call-up is a method.
  - Each method is proved against the functions above.
  - The construction and destruction handlers keep the invariant `Valid`.
- `render_frame.dfy` (module `RenderFrame`): the single-slot render-frame
  mailbox, as a class with a specification on values.

The queue is modelled by the events handed to it since its last flush. When
the application's main loop has returned, nothing is inserted. Blocking
insertion reports back what the main loop answers: the parameter `handled`.

## Model

| member | source | states |
|---|---|---|
| AppStatus.Set | android/jni/nv_event/nv_event.cpp:80-83 | the word with the bits of the mask turned on (`|=`); SetOnlyMask and SetOneFlag state what it does |
| AppStatus.Clear | android/jni/nv_event/nv_event.cpp:85-88 | the word with the bits of the mask turned off (`&= ~`); ClearOnlyMask and ClearOneFlag state what it does |
| AppStatus.Query | android/jni/nv_event/nv_event.cpp:90-93 | true iff some bit of the mask is set; DecodeGet, SetBitAt and ClearBitAt state how it reads the flags |
| AppStatus.QueryEqualMasked | android/jni/nv_event/nv_event.cpp:95-98 | true iff the word's bits under the mask are exactly the given ones; IsInteractable states what it gives for INTERACTABLE |
| AppStatus.SetOnlyMask | android/jni/nv_event/nv_event.cpp:80-83 | setting a mask turns all its bits on and leaves every other bit of the word as it was |
| AppStatus.ClearOnlyMask | android/jni/nv_event/nv_event.cpp:85-88 | clearing a mask turns all its bits off and leaves every other bit as it was |
| AppStatus.IsInteractable | android/jni/nv_event/nv_event.cpp:261-265 | the masked-equality test on INTERACTABLE holds iff Running, Active, Focused and HasRealSurface are each set |
| AppStatus.InteractableIgnoresEgl | android/jni/nv_event/nv_event.cpp:261-265 | two words that agree on the four lifecycle bits agree on interactability, whatever their EGL bits |
| AppStatus.WithChangesOne | android/jni/nv_event/nv_event.cpp:80-88 | updating one flag gives it the new value and keeps every other flag |
| AppStatus.Decode | android/jni/nv_event/nv_event.cpp:229-286 | the seven flags of a word, each read by its own NVEventStatus* query; DecodeGet states it flag by flag |
| AppStatus.DecodeGet | android/jni/nv_event/nv_event.cpp:229-286 | each named flag read from a word is that word's single-bit query of the flag's mask |
| AppStatus.InteractableDecoded | android/jni/nv_event/nv_event.cpp:259-265 | the masked test on the word and the four-boolean test on its flags agree |
| AppStatus.SetOneFlag | android/jni/nv_event/nv_event.cpp:80-83 | setting a flag's bit changes exactly that flag, to true |
| AppStatus.ClearOneFlag | android/jni/nv_event/nv_event.cpp:85-88 | clearing a flag's bit changes exactly that flag, to false |
| AppStatus.SetBitAt | android/jni/nv_event/nv_event.cpp:80-93 | after setting flag f, the query for g holds if g is f and is unchanged otherwise |
| AppStatus.ClearBitAt | android/jni/nv_event/nv_event.cpp:85-93 | after clearing flag f, the query for g fails if g is f and is unchanged otherwise |
| AppStatus.ApplyCommutes | android/jni/nv_event/nv_event.cpp:75-88 | a set, clear or zero on the word is the corresponding update of its flags; zero clears all seven |
| AppStatus.RunCommutes | android/jni/nv_event/nv_event.cpp:75-88 | any sequence of set, clear and zero on the word is the same sequence of updates on its flags |
| AppStatus.InteractableAfterRun | android/jni/nv_event/nv_event.cpp:259-265 | after any sequence of flag updates, the word is interactable iff the four lifecycle booleans hold |
| Host.Provider.CallBoolean | android/jni/nv_event/nv_event.cpp:135-171 | a boolean call-up takes the next scripted answer, false once none is left, and is logged |
| Host.Provider.CallVoid | android/jni/nv_event/nv_event.cpp:192-209 | a void call-up is logged and nothing else changes |
| Events.EventName | android/jni/nv_event/nv_event.cpp:340-368 | every kind has a name starting with NV_EVENT_, so the fallback string is never returned |
| Events.EventNameInjective | android/jni/nv_event/nv_event.cpp:340-368 | distinct kinds have distinct names |
| Input.PointerMask | android/jni/nv_event/nv_event.cpp:594-599 | the mask is below 4, and bit 0 is hasFirst and bit 1 is hasSecond |
| Input.BaseActionCases | android/jni/nv_event/nv_event.cpp:603-618 | a stripped action equal to UP, DOWN or CANCEL gets that code, the first match winning; any other action is MOVE |
| Input.BaseActionFits | android/jni/nv_event/nv_event.cpp:603-620 | with valid codes, the base code fits in the low byte, below the pointer bits |
| Input.MultiTouchRoundTrip | android/jni/nv_event/nv_event.cpp:592-620 | from the encoded action, the low byte gives back the base code and the bits above the shift are exactly the pointer mask |
| Input.PackUnpack | android/jni/nv_event/nv_event.cpp:619-620 | a one-byte code ORed with a two-bit mask shifted by 8 can both be read back |
| Input.BaseAction | android/jni/nv_event/nv_event.cpp:603-618 | the multi-touch code of a stripped Android action: UP, DOWN, CANCEL tested in that order, MOVE otherwise; BaseActionCases and BaseActionFits state it |
| Input.MultiTouchAction | android/jni/nv_event/nv_event.cpp:592-620 | the base code ORed with the pointer mask shifted up; MultiTouchRoundTrip states what can be read back |
| Input.ForwardsKey | android/jni/nv_event/nv_event.cpp:642-643 | a mapped code is forwarded iff it is not the null key code and differs from the remembered code or action; RepeatSuppressed states the consequences |
| Input.RepeatSuppressed | android/jni/nv_event/nv_event.cpp:640-655 | a key repeating the remembered code and action is suppressed; a non-null one differing in either is forwarded |
| Egl.IsPreparedForOffscreen | android/jni/nv_event/nv_event.cpp:494-497 | both stored sizes are nonzero; SurfaceChoice relates it to the window case |
| Egl.IsPreparedForWindow | android/jni/nv_event/nv_event.cpp:498-501 | both stored sizes are zero; SurfaceChoice relates it to the off-screen case |
| Egl.SurfaceChoice | android/jni/nv_event/nv_event.cpp:494-546 | window and off-screen intents never both hold; the window surface is created iff both sizes are 0, else an off-screen one of the stored size, also with one zero size |
| Egl.Try | android/jni/nv_event/nv_event.cpp:519-524 | one EGL call-up: on a true answer its flag is set, on false nothing changes and the attempt fails; TryOnlySets states that it only ever sets that EGL flag, and OneStepPlan that it is the run of a one-step plan |
| Egl.EnsureInitialized | android/jni/nv_event/nv_event.cpp:517-525 | initialise only when not initialised; EnsureSurfaceFollowsPlan places it in the plan |
| Egl.EnsureSurface | android/jni/nv_event/nv_event.cpp:514-547 | without a surface: initialise if needed, then create the window or off-screen surface; EnsureSurfaceOnlySets and EnsureSurfaceFollowsPlan state it |
| Egl.ReadyToRender | android/jni/nv_event/nv_event.cpp:503-558 | NVEventReadyToRenderEGL as a function of the flags, the stored size and the answers; the Ready* lemmas below state its guarantees |
| Egl.Allocate | android/jni/nv_event/nv_event.cpp:514-552 | the not-bound branch when allocation is allowed: the surface block of Egl.EnsureSurface, then the bind, stopping at the first failure; the Ready* lemmas state its guarantees through Egl.ReadyToRender |
| Egl.TryOnlySets | android/jni/nv_event/nv_event.cpp:397-459 | an EGL call-up's attempt only ever sets its own EGL flag, never clears one, and leaves the lifecycle flags alone |
| Egl.EnsureSurfaceOnlySets | android/jni/nv_event/nv_event.cpp:514-547 | the surface block only sets flags and leaves the lifecycle flags alone, whatever the answers |
| Egl.OneStepPlan | android/jni/nv_event/nv_event.cpp:519-524 | running a one-step plan is exactly that one call-up's attempt |
| Egl.RunPlanAppend | android/jni/nv_event/nv_event.cpp:514-555 | running two plans in a row: the second runs only if the first succeeded, from the flags it left, with the answers it did not use |
| Egl.RunPlanAfterSuccesses | android/jni/nv_event/nv_event.cpp:503-558 | after true answers the first steps succeed, and the rest of the plan runs from the flags they set |
| Egl.PlanAfterPrefix | android/jni/nv_event/nv_event.cpp:503-558 | once the first k planned steps have set their flags the context is still unbound and exactly the remaining steps are planned |
| Egl.ReadyShortCuts | android/jni/nv_event/nv_event.cpp:503-512 | bound: succeed with no call and no change; unbound without allocation: fail with no call and no change |
| Egl.ReadyOkIsBound | android/jni/nv_event/nv_event.cpp:503-558 | success implies Bound set, and a surface present unless the context was already bound |
| Egl.ReadyOnlySets | android/jni/nv_event/nv_event.cpp:503-558 | no flag is ever cleared and the lifecycle flags are untouched, whatever the answers |
| Egl.ReadyKeepsConsistent | android/jni/nv_event/nv_event.cpp:503-558 | "Bound implies HasSurface" is preserved |
| Egl.ReadyCallsOnlyWhatIsMissing | android/jni/nv_event/nv_event.cpp:514-550 | init is called only when neither initialised nor holding a surface, a surface is created only when missing, and every call is one of the three steps |
| Egl.RunPlanClosedForm | android/jni/nv_event/nv_event.cpp:503-558 | running steps until the first failure: the first k steps (k leading true answers) set their flags, the next one is called and fails, and success iff all succeed |
| Egl.EnsureSurfaceFollowsPlan | android/jni/nv_event/nv_event.cpp:514-547 | the surface block runs the planned init (if needed) and surface steps until the first failure |
| Egl.ReadyFollowsPlan | android/jni/nv_event/nv_event.cpp:503-558 | ReadyToRender with allocation on an unbound status runs exactly the planned steps until the first failure |
| Egl.FailedAttemptLeavesRest | android/jni/nv_event/nv_event.cpp:503-558 | a failed attempt made k successful calls and one failing one, set exactly the k flags, left the context unbound, and the remaining steps are what is now planned |
| Egl.RetryResumes | android/jni/nv_event/nv_event.cpp:503-558 | a retry after a failure behaves like one attempt whose answers are the first attempt's successful ones then the retry's; nothing that succeeded is redone |
| NvEvent.Bridge.constructor | android/jni/nv_event/nv_event.cpp:73-110 | the file's statics at load: status word 0, no reference held, both thread flags false, an empty queue, and the key statics of lines 634-635 at 0; the key mapping, null key code, action constants and Java side are parameters |
| NvEvent.Bridge.IsInteractable | android/jni/nv_event/nv_event.cpp:261-265 | Running, Active, Focused and HasRealSurface all hold of the bridge's flags; InteractableDecoded ties it to the word's masked test |
| NvEvent.Bridge.Flush | android/jni/nv_event/nv_event.cpp:822-822 | the queue is emptied, as onPauseNative and the final onDestroyNative do (line 862) |
| NvEvent.Bridge.ZeroAppFlags | android/jni/nv_event/nv_event.cpp:75-78 | all seven flags are cleared |
| NvEvent.Bridge.SetAppFlag | android/jni/nv_event/nv_event.cpp:80-83 | the named flag is set and no other flag changes |
| NvEvent.Bridge.ClearAppFlag | android/jni/nv_event/nv_event.cpp:85-88 | the named flag is cleared and no other flag changes |
| NvEvent.Bridge.Insert | android/jni/nv_event/nv_event.cpp:380-384 | the event is appended unless the main loop has returned, when nothing is inserted |
| NvEvent.Bridge.InsertBlocking | android/jni/nv_event/nv_event.cpp:386-392 | as Insert; the result is the main loop's answer, and false once it has returned |
| NvEvent.Bridge.InitEGL | android/jni/nv_event/nv_event.cpp:397-406 | one InitEGL call-up; Initialized is set iff it answered true, and that answer is returned |
| NvEvent.Bridge.CleanupEGL | android/jni/nv_event/nv_event.cpp:408-414 | the three EGL flags are cleared whatever the answer; the answer is returned |
| NvEvent.Bridge.CreateSurfaceEGL | android/jni/nv_event/nv_event.cpp:416-425 | HasSurface is set iff the call-up answered true, which is returned |
| NvEvent.Bridge.CreateOffScreenSurfaceEGL | android/jni/nv_event/nv_event.cpp:427-436 | the call-up carries the size; HasSurface is set iff it answered true |
| NvEvent.Bridge.DestroySurfaceEGL | android/jni/nv_event/nv_event.cpp:438-448 | without a surface: true, no call, no change; otherwise unbind first if bound, HasSurface and Bound cleared whatever the answers, the destroy answer returned |
| NvEvent.Bridge.BindSurfaceAndContextEGL | android/jni/nv_event/nv_event.cpp:450-459 | Bound is set iff the call-up answered true, which is returned |
| NvEvent.Bridge.UnbindSurfaceAndContextEGL | android/jni/nv_event/nv_event.cpp:461-465 | Bound is cleared whatever the answer; the answer is returned |
| NvEvent.Bridge.SwapBuffersEGL | android/jni/nv_event/nv_event.cpp:467-473 | one SwapBuffersEGL call-up, its answer returned, flags unchanged |
| NvEvent.Bridge.ReadyToRenderEGL | android/jni/nv_event/nv_event.cpp:503-558 | result, flags, calls made and answers used are those of Egl.ReadyToRender |
| NvEvent.Bridge.AllocateEGL | android/jni/nv_event/nv_event.cpp:514-552 | the surface block then the bind: result, flags, calls made and answers used are those of Egl.Allocate |
| NvEvent.Bridge.EnsureSurfaceEGL | android/jni/nv_event/nv_event.cpp:514-547 | the surface block does what Egl.EnsureSurface says |
| NvEvent.Bridge.CreateIntendedSurfaceEGL | android/jni/nv_event/nv_event.cpp:527-546 | a window surface for a 0 x 0 stored size, else an off-screen one of that size; flags, log and answers as the Egl.Try of Egl.SurfaceCall |
| NvEvent.Bridge.EnsureInitializedEGL | android/jni/nv_event/nv_event.cpp:517-525 | initialise only when not initialised, as Egl.EnsureInitialized says |
| NvEvent.Bridge.PrepareWindowSurface | android/jni/nv_event/nv_event.cpp:484-488 | the stored size becomes 0 x 0, which is prepared for a window |
| NvEvent.Bridge.PrepareOffScreenSurface | android/jni/nv_event/nv_event.cpp:489-493 | the stored size becomes the given one |
| NvEvent.Bridge.OnCreate | android/jni/nv_event/nv_event.cpp:687-747 | nonzero count: only increment, true; app init fails: false, count 0, flags zero, no reference kept, Running clear; otherwise flags are exactly Running, count 1, thread flags cleared, queue empty; Valid kept |
| NvEvent.Bridge.MainLoopExited | android/jni/nv_event/nv_event.cpp:309-330 | the thread is marked exited, and a Finish call-up is attempted iff QUIT was not posted by Java; Valid kept |
| NvEvent.Bridge.OnDestroy | android/jni/nv_event/nv_event.cpp:836-892 | count 0: false and nothing changes; count > 1: only decrement; final destroy of a running loop: Running cleared, posted-quit set, QUIT the only queued event, loop exited, reference released; Valid kept |
| NvEvent.Bridge.OnStart | android/jni/nv_event/nv_event.cpp:749-754 | exactly one START inserted (none once the loop has returned); result as InsertBlocking |
| NvEvent.Bridge.OnRestart | android/jni/nv_event/nv_event.cpp:756-761 | exactly one RESTART inserted; result as InsertBlocking |
| NvEvent.Bridge.OnResume | android/jni/nv_event/nv_event.cpp:763-769 | Active set and nothing else; one RESUME inserted |
| NvEvent.Bridge.OnSurfaceCreated | android/jni/nv_event/nv_event.cpp:771-783 | HasRealSurface set iff both sizes are positive; one SURFACE_CREATED with the size inserted |
| NvEvent.Bridge.OnFocusChanged | android/jni/nv_event/nv_event.cpp:785-794 | Focused becomes the argument; FOCUS_GAINED or FOCUS_LOST inserted accordingly |
| NvEvent.Bridge.OnSurfaceChanged | android/jni/nv_event/nv_event.cpp:796-808 | HasRealSurface set iff w * h is nonzero; one SURFACE_SIZE inserted |
| NvEvent.Bridge.OnSurfaceDestroyed | android/jni/nv_event/nv_event.cpp:810-816 | HasRealSurface cleared; one SURFACE_DESTROYED inserted |
| NvEvent.Bridge.OnPause | android/jni/nv_event/nv_event.cpp:818-827 | queue flushed, Active cleared, then PAUSE is the only queued event unless the loop has returned |
| NvEvent.Bridge.OnStop | android/jni/nv_event/nv_event.cpp:829-834 | exactly one STOP inserted; result as InsertBlocking |
| NvEvent.Bridge.PostUserEvent | android/jni/nv_event/nv_event.cpp:894-913 | one USER event with the four words; non-blocking always reports true, blocking reports the loop's answer |
| NvEvent.Bridge.PostMwmEvent | android/jni/nv_event/nv_event.cpp:915-925 | one MWM event carrying the callback, blocking or not |
| NvEvent.Bridge.Repaint | android/jni/nv_event/nv_event.cpp:560-568 | one USER event with first word 1; always true |
| NvEvent.Bridge.ReportUnsupported | android/jni/nv_event/nv_event.cpp:570-575 | Focused cleared and nothing else; ReportUnsupported called up |
| NvEvent.Bridge.OnRenderingInitialized | android/jni/nv_event/nv_event.cpp:577-580 | OnRenderingInitialized called up; nothing else changes |
| NvEvent.Bridge.MultiTouchEvent | android/jni/nv_event/nv_event.cpp:586-629 | one MULTITOUCH event with the encoded action and the coordinates unchanged; always true |
| NvEvent.Bridge.KeyEvent | android/jni/nv_event/nv_event.cpp:631-666 | a mapped, non-null, non-repeating key is inserted blocking and every mapped key remembered; a nonzero character is inserted for any action but up; the result is the key's handling |
| RenderFrame.Post | android/jni/nv_event/nv_event.cpp:931-940 | the slot holds the posted frame, waiting; TakeAfterPost and LastPostWins state it |
| RenderFrame.Take | android/jni/nv_event/nv_event.cpp:942-953 | the waiting frame, if any, and a slot with nothing waiting; TakeConsumes and TakeEmpty state it |
| RenderFrame.TakeAfterPost | android/jni/nv_event/nv_event.cpp:931-953 | the frame posted is the one taken next, and a second take yields nothing |
| RenderFrame.TakeConsumes | android/jni/nv_event/nv_event.cpp:942-953 | a take leaves nothing waiting and yields a frame iff one was waiting, namely that frame |
| RenderFrame.LastPostWins | android/jni/nv_event/nv_event.cpp:931-940 | of two posts without a take between them, only the later is seen |
| RenderFrame.TakeEmpty | android/jni/nv_event/nv_event.cpp:942-953 | a take with nothing waiting yields nothing and changes nothing |
| RenderFrame.Mailbox.constructor | android/jni/nv_event/nv_event.cpp:927-929 | the mailbox starts with nothing waiting |
| RenderFrame.Mailbox.PostRequest | android/jni/nv_event/nv_event.cpp:931-940 | the mailbox becomes Post of its old contents |
| RenderFrame.Mailbox.TakeRequest | android/jni/nv_event/nv_event.cpp:942-953 | the result and the new contents are Take of the old contents |

## Left out

- The JNI method-lookup plumbing (`MethodRef`) and native-method registration
  (`InitNVEvent`) are not modelled. The scripted `Provider` stands for the
  Java side. In the source, a call-up without a JNI environment or a method
  ID answers false; an exhausted script answers false in the same way. The
  missing global reference is not modelled; see the Host.Provider line below.
- `NVEventInitInputFields` is not modelled. The Android action constants it
  reads are the `actions` parameter of the bridge. `ACTION_POINTER_ID_SHIFT`
  and the key `ACTION_UP` are read but never used by the modelled code, so
  they are not kept. The key handler compares with the MotionEvent
  `ACTION_UP`, as the code does.
- The bridge's multi-touch codes are a parameter, because `nv_event.hpp` is
  not part of this model. The pointer shift is taken to be 8 and the action
  mask 0xff.
- Threads and mutexes are not modelled: spawning the main loop, the mutex
  guards and `pthread_join`. The join is modelled by running the thread's
  tail (`MainLoopExited`) at that point. While `onDestroyNative` waits in
  `pthread_join` (line 880), the main loop handles QUIT and may make EGL
  call-ups such as `NVEventCleanupEGL`; the `OnDestroy` contract covers
  only the writes of `onDestroyNative` itself.
- The event queue's internals (`nv_event_queue.hpp`) are not modelled: the
  blocking handshake, `RemoveOldest`, `Unblock*` and `Shutdown`. So are
  `NVEventGetNextEvent` and `NVEventDoneWithEvent`, which only forward to
  the queue. The queue's `Init` is taken to start an empty queue.
- The key-code translation (`nv_keycode_mapping.hpp`) is the partial map
  `keyMapping`; an absent key is one `MapKey` does not map.
- KeyEvent: `NV_KEYCODE_NULL` is defined in a header that is not part of this
  model, so it is the bridge's constant `nullKeyCode`, fixed at construction.
  A mapped key may yield it, and is then not forwarded but still remembered.
  The remembered code starts at the literal 0, as the source's static does.
- Not modelled, as floating point, I/O or constants with no logic:
  - the accelerometer handler;
  - `NVEventGetErrorEGL`;
  - the swap-buffer profiling reset;
  - `NVEventLoadFile`;
  - `NVEventGetPlatformAppHandle`;
  - all logging.
- The render-frame position and scale are doubles that are only copied. They
  are kept as plain numbers.
- OnSurfaceChanged: does not model 32-bit `int` overflow of `w * h`. The
  product is taken over unbounded integers, so sizes whose product wraps to
  0 are not covered.
- Host.Provider.CallBoolean and Host.Provider.CallVoid: the provider does not
  see whether the global reference to the Java activity is held. In the
  source, a call-up without it answers false or does nothing (lines 139 and
  196). In the model it takes a scripted answer and is logged whatever
  `hasGlobalRef` is. The log therefore records the call-ups attempted, not
  the ones that reached Java. An example is the `Finish` of `MainLoopExited`
  after an `OnCreate` whose global reference failed. Every property is stated
  for all scripts, so it also covers the answers such a call-up really gives.
- PostUserEvent: `blocking` is a boolean. The code tests
  `blocking == JNI_TRUE` (line 904), so a jboolean other than 0 and 1 takes
  the non-blocking path, which the model does not cover.
- OnFocusChanged: `focused` is a boolean. The code tests `focused == JNI_TRUE`
  for the event kind but plain truthiness for the flag, and the two differ
  only for a jboolean other than 0 and 1.
- Repaint: the three uninitialised user words are modelled as 0.
- OnCreate: the result of `NewGlobalRef` is the parameter `refOk`. The path at
  lines 699-700 would call `onDestroyNative` with the construction mutex
  already held. `Valid` (no global reference while the count is 0) rules
  that path out, so it is not modelled as if it worked.
- OnDestroy: a final destroy after the main loop has already returned on its
  own leaves Running set. This is what the code does.
- PostMwmEvent: the callback pointer is an opaque handle.
- The class keeps the status word as its seven flags. `RunCommutes` links
  every set/clear/zero on the flags to the same operation on the `bv32`
  word.
