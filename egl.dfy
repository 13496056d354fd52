/** Lazy EGL set-up (NVEventReadyToRenderEGL) as a function of the status
    flags, the stored surface size and the Java side's answers. The bridge's
    method of the same name is proved to follow this definition; the lemmas
    here say what the definition guarantees, and relate it to a plan of steps
    run until the first failure. */
module Egl {
  import opened AppStatus
  import opened Host

  // Surface intent: a stored size of 0 x 0 asks for a window surface.

  predicate IsPreparedForOffscreen(width: int, height: int)
  {
    width != 0 && height != 0
  }

  predicate IsPreparedForWindow(width: int, height: int)
  {
    width == 0 && height == 0
  }

  /** The surface ReadyToRender creates for the stored size. */
  function SurfaceCall(width: int, height: int): HostCall
  {
    if IsPreparedForWindow(width, height) then CreateSurfaceEGL
    else CreateOffScreenSurfaceEGL(width, height)
  }

  /** The two intents never hold together; the window surface is chosen iff
      both dimensions are 0, so a size with exactly one zero dimension, which
      is prepared for neither, still gets an off-screen surface of that size. */
  lemma SurfaceChoice(width: int, height: int)
    ensures !(IsPreparedForWindow(width, height) && IsPreparedForOffscreen(width, height))
    ensures SurfaceCall(width, height) == CreateSurfaceEGL <==> IsPreparedForWindow(width, height)
    ensures !IsPreparedForWindow(width, height) ==> SurfaceCall(width, height) == CreateOffScreenSurfaceEGL(width, height)
    ensures (width == 0) != (height == 0) ==>
              && !IsPreparedForWindow(width, height) && !IsPreparedForOffscreen(width, height)
              && SurfaceCall(width, height) == CreateOffScreenSurfaceEGL(width, height)
  {
  }

  /** The outcome of a sequence of call-ups: the result, the status flags
      afterwards and the calls made, in order. */
  datatype Attempt = Attempt(ok: bool, status: Flags, calls: seq<HostCall>)

  /** Every flag set in `before` is set in `after`. */
  predicate Grows(before: Flags, after: Flags)
  {
    && (before.running ==> after.running)
    && (before.active ==> after.active)
    && (before.focused ==> after.focused)
    && (before.hasRealSurface ==> after.hasRealSurface)
    && (before.eglInitialized ==> after.eglInitialized)
    && (before.eglHasSurface ==> after.eglHasSurface)
    && (before.eglBound ==> after.eglBound)
  }

  /** The four lifecycle flags agree. */
  predicate SameLifecycle(a: Flags, b: Flags)
  {
    a.running == b.running && a.active == b.active && a.focused == b.focused
    && a.hasRealSurface == b.hasRealSurface
  }

  /** A bound context has a surface. */
  predicate EglConsistent(fl: Flags)
  {
    fl.eglBound ==> fl.eglHasSurface
  }

  /** One boolean call-up that sets flag `f` when the Java side answers true. */
  function Try(s: Flags, c: HostCall, f: Flag, script: seq<bool>): Attempt
  {
    if Answer(script) then Attempt(true, With(s, f, true), [c]) else Attempt(false, s, [c])
  }

  /** `b` run after `a`: the calls of both, the result and status of `b`. */
  function Then(a: Attempt, b: Attempt): Attempt
  {
    Attempt(b.ok, b.status, a.calls + b.calls)
  }

  /** Initialise EGL unless it is initialised already. */
  function EnsureInitialized(s: Flags, script: seq<bool>): Attempt
  {
    if s.eglInitialized then Attempt(true, s, [])
    else Try(s, InitEGL, EglInitialized, script)
  }

  /** Create a surface unless one exists, initialising EGL first if needed. */
  function EnsureSurface(s: Flags, width: int, height: int, script: seq<bool>): Attempt
  {
    if s.eglHasSurface then Attempt(true, s, [])
    else
      var i := EnsureInitialized(s, script);
      if !i.ok then i
      else Then(i, Try(i.status, SurfaceCall(width, height), EglHasSurface, Consume(script, |i.calls|)))
  }

  /** Make sure of a surface, then bind it and the context, stopping at the
      first call-up that fails. */
  function Allocate(s: Flags, width: int, height: int, script: seq<bool>): Attempt
  {
    var a := EnsureSurface(s, width, height, script);
    if !a.ok then a
    else Then(a, Try(a.status, BindSurfaceAndContextEGL, EglBound, Consume(script, |a.calls|)))
  }

  /** NVEventReadyToRenderEGL: nothing to do when bound; otherwise, if
      allowed to allocate, make sure of a surface and bind it, stopping at the
      first call-up that fails. Each call-up takes the next answer of `script`. */
  function ReadyToRender(s: Flags, allocate: bool, width: int, height: int, script: seq<bool>): Attempt
  {
    if s.eglBound then Attempt(true, s, [])
    else if !allocate then Attempt(false, s, [])
    else Allocate(s, width, height, script)
  }

  /** A bound context makes ReadyToRender succeed at once; an unbound one
      without permission to allocate makes it fail at once. Neither calls up
      or changes the flags. */
  lemma ReadyShortCuts(s: Flags, allocate: bool, width: int, height: int, script: seq<bool>)
    ensures s.eglBound ==> ReadyToRender(s, allocate, width, height, script) == Attempt(true, s, [])
    ensures !s.eglBound && !allocate ==> ReadyToRender(s, allocate, width, height, script) == Attempt(false, s, [])
  {
  }

  /** ReadyToRender succeeds only with the context bound, and, unless it was
      bound already, with a surface. */
  lemma ReadyOkIsBound(s: Flags, allocate: bool, width: int, height: int, script: seq<bool>)
    ensures var r := ReadyToRender(s, allocate, width, height, script);
            r.ok ==> r.status.eglBound && (r.status.eglHasSurface || s.eglBound)
  {
  }

  /** ReadyToRender never clears a flag and never touches the lifecycle
      flags. */
  lemma ReadyOnlySets(s: Flags, allocate: bool, width: int, height: int, script: seq<bool>)
    ensures var r := ReadyToRender(s, allocate, width, height, script);
            Grows(s, r.status) && SameLifecycle(s, r.status)
  {
    if !s.eglBound && allocate {
      var a := EnsureSurface(s, width, height, script);
      EnsureSurfaceOnlySets(s, width, height, script);
      TryOnlySets(a.status, BindSurfaceAndContextEGL, EglBound, Consume(script, |a.calls|));
    }
  }

  lemma EnsureSurfaceOnlySets(s: Flags, width: int, height: int, script: seq<bool>)
    ensures var a := EnsureSurface(s, width, height, script);
            Grows(s, a.status) && SameLifecycle(s, a.status)
  {
    if !s.eglHasSurface {
      var i := EnsureInitialized(s, script);
      TryOnlySets(s, InitEGL, EglInitialized, script);
      TryOnlySets(i.status, SurfaceCall(width, height), EglHasSurface, Consume(script, |i.calls|));
    }
  }

  lemma TryOnlySets(s: Flags, c: HostCall, f: Flag, script: seq<bool>)
    requires f == EglInitialized || f == EglHasSurface || f == EglBound
    ensures var t := Try(s, c, f, script);
            Grows(s, t.status) && SameLifecycle(s, t.status)
  {
    SettingEglFlag(s, f);
  }

  /** Setting an EGL flag sets it, clears nothing and leaves the lifecycle
      flags alone. */
  lemma SettingEglFlag(s: Flags, f: Flag)
    requires f == EglInitialized || f == EglHasSurface || f == EglBound
    ensures Grows(s, With(s, f, true)) && SameLifecycle(s, With(s, f, true))
  {
  }

  /** ReadyToRender keeps "bound implies a surface". */
  lemma ReadyKeepsConsistent(s: Flags, allocate: bool, width: int, height: int, script: seq<bool>)
    requires EglConsistent(s)
    ensures EglConsistent(ReadyToRender(s, allocate, width, height, script).status)
  {
  }

  /** EGL is initialised only when neither initialised nor holding a surface,
      and a surface is created only when there is none; every call-up is one
      of the three steps. */
  lemma ReadyCallsOnlyWhatIsMissing(s: Flags, allocate: bool, width: int, height: int, script: seq<bool>)
    ensures var r := ReadyToRender(s, allocate, width, height, script);
            && (InitEGL in r.calls ==> !s.eglInitialized && !s.eglHasSurface)
            && (SurfaceCall(width, height) in r.calls ==> !s.eglHasSurface)
            && (forall c :: c in r.calls ==> c in {InitEGL, SurfaceCall(width, height), BindSurfaceAndContextEGL})
  {
  }

  // The same behaviour as a plan of steps run until the first failure.

  /** A call-up and the flag it sets when it succeeds. */
  datatype PlanStep = PlanStep(call: HostCall, flag: Flag)

  /** The steps EnsureInitialized needs. */
  function InitPlan(s: Flags): seq<PlanStep>
  {
    if s.eglInitialized then [] else [PlanStep(InitEGL, EglInitialized)]
  }

  /** The steps EnsureSurface needs. */
  function SurfacePlan(s: Flags, width: int, height: int): seq<PlanStep>
  {
    if s.eglHasSurface then [] else InitPlan(s) + [PlanStep(SurfaceCall(width, height), EglHasSurface)]
  }

  /** The steps an unbound status needs, in order. */
  function Planned(s: Flags, width: int, height: int): seq<PlanStep>
  {
    SurfacePlan(s, width, height) + [PlanStep(BindSurfaceAndContextEGL, EglBound)]
  }

  /** Run `plan`, each step taking the next answer, until a step fails. */
  function RunPlan(s: Flags, plan: seq<PlanStep>, script: seq<bool>): Attempt
    decreases |plan|
  {
    if plan == [] then Attempt(true, s, [])
    else if !Answer(script) then Attempt(false, s, [plan[0].call])
    else
      var rest := RunPlan(With(s, plan[0].flag, true), plan[1..], Consume(script, 1));
      Attempt(rest.ok, rest.status, [plan[0].call] + rest.calls)
  }

  function Calls(plan: seq<PlanStep>): seq<HostCall>
  {
    seq(|plan|, i requires 0 <= i < |plan| => plan[i].call)
  }

  /** The flags after those of `steps` are set, in order. */
  function SetAll(s: Flags, steps: seq<PlanStep>): Flags
    decreases |steps|
  {
    if steps == [] then s else SetAll(With(s, steps[0].flag, true), steps[1..])
  }

  /** How many of the first `n` answers of `script` are true before the first
      false one. */
  function Successes(script: seq<bool>, n: nat): (k: nat)
    ensures k <= n
    decreases n
  {
    if n == 0 || !Answer(script) then 0 else 1 + Successes(Consume(script, 1), n - 1)
  }

  /** The answers counted by Successes are there and are all true. */
  lemma {:induction false} SuccessesAreTrue(script: seq<bool>, n: nat)
    ensures Successes(script, n) <= |script|
    ensures forall i :: 0 <= i < Successes(script, n) ==> script[i]
    decreases n
  {
    if n != 0 && Answer(script) {
      SuccessesAreTrue(Consume(script, 1), n - 1);
    }
  }

  /** Running a plan, in closed form: with k the number of leading true
      answers, the first k steps succeed and set their flags, the call after
      them (if any) fails, and the run succeeds iff every step did. */
  predicate ClosedFormHolds(s: Flags, plan: seq<PlanStep>, script: seq<bool>)
  {
    var r := RunPlan(s, plan, script);
    var k := Successes(script, |plan|);
    && r.ok == (k == |plan|)
    && r.calls == Calls(plan[..k]) + (if k < |plan| then [plan[k].call] else [])
    && r.status == SetAll(s, plan[..k])
  }

  /** Every plan run has the closed form. */
  lemma {:induction false} RunPlanClosedForm(s: Flags, plan: seq<PlanStep>, script: seq<bool>)
    ensures ClosedFormHolds(s, plan, script)
    decreases |plan|
  {
    if plan != [] && Answer(script) {
      RunPlanClosedForm(With(s, plan[0].flag, true), plan[1..], Consume(script, 1));
      ClosedFormStep(s, plan, script);
    } else if plan != [] {
      assert plan[..0] == [];
    }
  }

  /** A first step that succeeds carries the closed form over from the rest
      of the plan to the whole of it. */
  lemma ClosedFormStep(s: Flags, plan: seq<PlanStep>, script: seq<bool>)
    requires plan != [] && Answer(script)
    requires ClosedFormHolds(With(s, plan[0].flag, true), plan[1..], Consume(script, 1))
    ensures ClosedFormHolds(s, plan, script)
  {
    var t := With(s, plan[0].flag, true);
    var rest := RunPlan(t, plan[1..], Consume(script, 1));
    var k := Successes(script, |plan|);
    assert k == Successes(Consume(script, 1), |plan| - 1) + 1;
    assert RunPlan(s, plan, script) == Attempt(rest.ok, rest.status, [plan[0].call] + rest.calls);
    PrefixCons(s, plan, k);
    PrefixConsCalls(plan, k);
  }

  /** The calls of the first k steps and the failing call after them, seen
      from the second step on. */
  lemma PrefixConsCalls(plan: seq<PlanStep>, k: nat)
    requires 0 < k <= |plan|
    ensures [plan[0].call] + (Calls(plan[1..][..k - 1]) + (if k - 1 < |plan| - 1 then [plan[1..][k - 1].call] else []))
         == Calls(plan[..k]) + (if k < |plan| then [plan[k].call] else [])
  {
    assert plan[..k][1..] == plan[1..][..k - 1];
    assert Calls(plan[..k]) == [plan[0].call] + Calls(plan[1..][..k - 1]);
  }

  /** A non-empty prefix of a plan, split into its first step and the rest. */
  lemma PrefixCons(s: Flags, plan: seq<PlanStep>, n: nat)
    requires 0 < n <= |plan|
    ensures SetAll(s, plan[..n]) == SetAll(With(s, plan[0].flag, true), plan[1..][..n - 1])
    ensures Calls(plan[..n]) == [plan[0].call] + Calls(plan[1..][..n - 1])
    ensures plan[1..][n - 1..] == plan[n..]
  {
    assert plan[..n][1..] == plan[1..][..n - 1];
  }

  /** Running two plans one after the other: the second runs only if the
      first succeeded, from the flags it left and with the answers it did not
      take. */
  lemma {:induction false} RunPlanAppend(s: Flags, p1: seq<PlanStep>, p2: seq<PlanStep>, script: seq<bool>)
    ensures AppendHolds(s, p1, p2, script)
    decreases |p1|
  {
    if p1 == [] {
      assert p1 + p2 == p2;
    } else if !Answer(script) {
      assert (p1 + p2)[0] == p1[0];
    } else {
      RunPlanAppend(With(s, p1[0].flag, true), p1[1..], p2, Consume(script, 1));
      AppendStep(s, p1, p2, script);
    }
  }

  /** The statement of RunPlanAppend. */
  predicate AppendHolds(s: Flags, p1: seq<PlanStep>, p2: seq<PlanStep>, script: seq<bool>)
  {
    var a := RunPlan(s, p1, script);
    RunPlan(s, p1 + p2, script)
    == if !a.ok then a else Then(a, RunPlan(a.status, p2, Consume(script, |a.calls|)))
  }

  /** A first step that succeeds carries the statement over from the rest of
      the first plan to the whole of it. */
  lemma AppendStep(s: Flags, p1: seq<PlanStep>, p2: seq<PlanStep>, script: seq<bool>)
    requires p1 != [] && Answer(script)
    requires AppendHolds(With(s, p1[0].flag, true), p1[1..], p2, Consume(script, 1))
    ensures AppendHolds(s, p1, p2, script)
  {
    var t := With(s, p1[0].flag, true);
    var rest := Consume(script, 1);
    var b := RunPlan(t, p1[1..], rest);
    var c := RunPlan(t, p1[1..] + p2, rest);
    assert (p1 + p2)[0] == p1[0];
    assert (p1 + p2)[1..] == p1[1..] + p2;
    assert RunPlan(s, p1 + p2, script) == Attempt(c.ok, c.status, [p1[0].call] + c.calls);
    assert RunPlan(s, p1, script) == Attempt(b.ok, b.status, [p1[0].call] + b.calls);
    if b.ok {
      AppendStepOk(script, p1[0].call, b, c, RunPlan(b.status, p2, Consume(rest, |b.calls|)));
    }
  }

  lemma AppendStepOk(script: seq<bool>, first: HostCall, b: Attempt, c: Attempt, d: Attempt)
    requires c == Then(b, d)
    ensures Attempt(c.ok, c.status, [first] + c.calls) == Then(Attempt(b.ok, b.status, [first] + b.calls), d)
  {
    assert [first] + (b.calls + d.calls) == ([first] + b.calls) + d.calls;
  }

  /** A plan of one step is that one call-up. */
  lemma OneStepPlan(s: Flags, step: PlanStep, script: seq<bool>)
    ensures RunPlan(s, [step], script) == Try(s, step.call, step.flag, script)
  {
    assert [step][1..] == [];
  }

  lemma EnsureSurfaceFollowsPlan(s: Flags, width: int, height: int, script: seq<bool>)
    ensures EnsureSurface(s, width, height, script) == RunPlan(s, SurfacePlan(s, width, height), script)
  {
    if !s.eglHasSurface {
      var surface := PlanStep(SurfaceCall(width, height), EglHasSurface);
      if !s.eglInitialized {
        OneStepPlan(s, PlanStep(InitEGL, EglInitialized), script);
      }
      var i := EnsureInitialized(s, script);
      assert i == RunPlan(s, InitPlan(s), script);
      RunPlanAppend(s, InitPlan(s), [surface], script);
      OneStepPlan(i.status, surface, Consume(script, |i.calls|));
    }
  }

  /** With the Bound flag clear, ReadyToRender(allocate = true) runs the
      planned steps. */
  lemma ReadyFollowsPlan(s: Flags, width: int, height: int, script: seq<bool>)
    requires !s.eglBound
    ensures ReadyToRender(s, true, width, height, script) == RunPlan(s, Planned(s, width, height), script)
  {
    var bind := PlanStep(BindSurfaceAndContextEGL, EglBound);
    EnsureSurfaceFollowsPlan(s, width, height, script);
    var a := EnsureSurface(s, width, height, script);
    RunPlanAppend(s, SurfacePlan(s, width, height), [bind], script);
    OneStepPlan(a.status, bind, Consume(script, |a.calls|));
  }

  /** Running a plan after answers that are all true: those steps succeed, and
      the rest of the plan runs from the flags they set. */
  predicate AfterSuccessesHolds(s: Flags, plan: seq<PlanStep>, pre: seq<bool>, script: seq<bool>)
    requires |pre| <= |plan|
  {
    var r := RunPlan(s, plan, pre + script);
    var t := RunPlan(SetAll(s, plan[..|pre|]), plan[|pre|..], script);
    r.ok == t.ok && r.status == t.status && r.calls == Calls(plan[..|pre|]) + t.calls
  }

  /** Every plan run after all-true answers has that shape. */
  lemma {:induction false} RunPlanAfterSuccesses(s: Flags, plan: seq<PlanStep>, pre: seq<bool>, script: seq<bool>)
    requires |pre| <= |plan|
    requires forall i :: 0 <= i < |pre| ==> pre[i]
    ensures AfterSuccessesHolds(s, plan, pre, script)
    decreases |pre|
  {
    if pre != [] {
      RunPlanAfterSuccesses(With(s, plan[0].flag, true), plan[1..], pre[1..], script);
      AfterSuccessesStep(s, plan, pre, script);
    } else {
      assert pre + script == script;
      assert plan[..0] == [] && plan[0..] == plan;
    }
  }

  /** A first answer that is true carries the statement over from the rest of
      the answers to all of them. */
  lemma AfterSuccessesStep(s: Flags, plan: seq<PlanStep>, pre: seq<bool>, script: seq<bool>)
    requires 0 < |pre| <= |plan| && pre[0]
    requires AfterSuccessesHolds(With(s, plan[0].flag, true), plan[1..], pre[1..], script)
    ensures AfterSuccessesHolds(s, plan, pre, script)
  {
    assert Answer(pre + script);
    assert Consume(pre + script, 1) == pre[1..] + script;
    PrefixCons(s, plan, |pre|);
  }

  /** After the first k < |plan| planned steps have set their flags, the
      context is still unbound and exactly the remaining steps are planned. */
  lemma PlanAfterPrefix(s: Flags, width: int, height: int, k: nat)
    requires !s.eglBound
    requires k < |Planned(s, width, height)|
    ensures var plan := Planned(s, width, height);
            var t := SetAll(s, plan[..k]);
            !t.eglBound && Planned(t, width, height) == plan[k..]
  {
    var plan := Planned(s, width, height);
    var bind := PlanStep(BindSurfaceAndContextEGL, EglBound);
    var surface := PlanStep(SurfaceCall(width, height), EglHasSurface);
    var init := PlanStep(InitEGL, EglInitialized);
    if k == 0 {
      assert plan[..0] == [] && plan[0..] == plan;
    } else if s.eglInitialized {
      assert plan == [surface, bind];
      assert plan[..1] == [surface] && plan[1..] == [bind];
      assert SetAll(s, [surface]) == With(s, EglHasSurface, true);
    } else {
      assert plan == [init, surface, bind];
      if k == 1 {
        assert plan[..1] == [init] && plan[1..] == [surface, bind];
        assert SetAll(s, [init]) == With(s, EglInitialized, true);
      } else {
        assert plan[..2] == [init, surface] && plan[2..] == [bind];
        assert [init, surface][1..] == [surface];
        var s1 := With(s, EglInitialized, true);
        assert SetAll(s1, [surface]) == With(s1, EglHasSurface, true);
        assert SetAll(s, [init, surface]) == SetAll(s1, [surface]);
      }
    }
  }

  /** A failed ReadyToRender made k successful call-ups and one failed one,
      and left the flags where a retry picks up. */
  lemma FailedAttemptLeavesRest(s: Flags, width: int, height: int, script: seq<bool>)
    requires !s.eglBound
    requires !ReadyToRender(s, true, width, height, script).ok
    ensures var plan := Planned(s, width, height);
            var k := Successes(script, |plan|);
            var a := ReadyToRender(s, true, width, height, script);
            && k < |plan|
            && |a.calls| == k + 1
            && a.calls[..k] == Calls(plan[..k])
            && a.status == SetAll(s, plan[..k])
            && !a.status.eglBound
            && Planned(a.status, width, height) == plan[k..]
  {
    var plan := Planned(s, width, height);
    ReadyFollowsPlan(s, width, height, script);
    RunPlanClosedForm(s, plan, script);
    var k := Successes(script, |plan|);
    PlanAfterPrefix(s, width, height, k);
  }

  /** A retry after a failed ReadyToRender resumes where it stopped: it does
      what a single attempt would have done whose answers were the ones the
      failed attempt's successful steps received followed by the retry's
      answers. Nothing that succeeded is repeated. */
  lemma RetryResumes(s: Flags, width: int, height: int, first: seq<bool>, second: seq<bool>)
    requires !s.eglBound
    requires !ReadyToRender(s, true, width, height, first).ok
    ensures var a := ReadyToRender(s, true, width, height, first);
            var k := |a.calls| - 1;
            var b := ReadyToRender(a.status, true, width, height, second);
            var c := ReadyToRender(s, true, width, height, first[..k] + second);
            && 0 <= k <= |first|
            && c.ok == b.ok && c.status == b.status
            && c.calls == a.calls[..k] + b.calls
  {
    var plan := Planned(s, width, height);
    var a := ReadyToRender(s, true, width, height, first);
    FailedAttemptLeavesRest(s, width, height, first);
    RunPlanClosedForm(s, plan, first);
    SuccessesAreTrue(first, |plan|);
    var k := |a.calls| - 1;
    ReadyFollowsPlan(a.status, width, height, second);
    ReadyFollowsPlan(s, width, height, first[..k] + second);
    RunPlanAfterSuccesses(s, plan, first[..k], second);
  }
}
