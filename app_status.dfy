/** The bridge's status word: one 32-bit unsigned word holding four Android
    lifecycle flags and three EGL flags, each an independent bit. */
module AppStatus {

  // Lifecycle flags (not app-specific)
  const RUNNING: bv32 := 0x01           // between onCreate and onDestroy
  const ACTIVE: bv32 := 0x02            // between onResume and onPause
  const FOCUSED: bv32 := 0x04           // between focus gained and focus lost
  const HAS_REAL_SURFACE: bv32 := 0x08  // the surface holder has a nonzero-sized surface
  const INTERACTABLE: bv32 := 0x0f      // all four lifecycle flags

  // EGL flags
  const EGL_INITIALIZED: bv32 := 0x10   // between InitEGL and CleanupEGL
  const EGL_HAS_SURFACE: bv32 := 0x20   // an EGL surface is allocated
  const EGL_BOUND: bv32 := 0x40         // surface and context are bound

  /** The word after the bits of `m` are set. */
  function Set(s: bv32, m: bv32): bv32
  {
    s | m
  }

  /** The word after the bits of `m` are cleared. */
  function Clear(s: bv32, m: bv32): bv32
  {
    s & !m
  }

  /** Set turns every bit of `m` on and leaves every other bit as it was. */
  lemma SetOnlyMask(s: bv32, m: bv32)
    ensures Set(s, m) & m == m
    ensures Set(s, m) & !m == s & !m
  {
  }

  /** Clear turns every bit of `m` off and leaves every other bit as it was. */
  lemma ClearOnlyMask(s: bv32, m: bv32)
    ensures Clear(s, m) & m == 0
    ensures Clear(s, m) & !m == s & !m
  {
  }

  /** True iff some bit of `m` is set. */
  predicate Query(s: bv32, m: bv32)
  {
    s & m != 0
  }

  /** True iff, among the bits of `mask`, exactly those of `status` are set. */
  predicate QueryEqualMasked(s: bv32, status: bv32, mask: bv32)
  {
    s & mask == status
  }

  /** Running, Active, Focused and HasRealSurface all hold. */
  function IsInteractable(s: bv32): (r: bool)
    ensures r <==> Query(s, RUNNING) && Query(s, ACTIVE) && Query(s, FOCUSED) && Query(s, HAS_REAL_SURFACE)
  {
    QueryEqualMasked(s, INTERACTABLE, INTERACTABLE)
  }

  /** Whether the word is interactable depends on its four lifecycle bits
      alone: two words that agree on them agree, whatever their EGL bits. */
  lemma InteractableIgnoresEgl(s: bv32, t: bv32)
    requires s & INTERACTABLE == t & INTERACTABLE
    ensures IsInteractable(s) == IsInteractable(t)
  {
  }

  // The same word seen as seven named booleans.

  datatype Flag =
    | Running | Active | Focused | HasRealSurface
    | EglInitialized | EglHasSurface | EglBound

  datatype Flags = Flags(
    running: bool, active: bool, focused: bool, hasRealSurface: bool,
    eglInitialized: bool, eglHasSurface: bool, eglBound: bool)

  function Mask(f: Flag): bv32
  {
    match f
    case Running => RUNNING
    case Active => ACTIVE
    case Focused => FOCUSED
    case HasRealSurface => HAS_REAL_SURFACE
    case EglInitialized => EGL_INITIALIZED
    case EglHasSurface => EGL_HAS_SURFACE
    case EglBound => EGL_BOUND
  }

  function Get(fl: Flags, f: Flag): bool
  {
    match f
    case Running => fl.running
    case Active => fl.active
    case Focused => fl.focused
    case HasRealSurface => fl.hasRealSurface
    case EglInitialized => fl.eglInitialized
    case EglHasSurface => fl.eglHasSurface
    case EglBound => fl.eglBound
  }

  /** `fl` with flag `f` replaced by `v`. */
  function With(fl: Flags, f: Flag, v: bool): Flags
  {
    match f
    case Running => fl.(running := v)
    case Active => fl.(active := v)
    case Focused => fl.(focused := v)
    case HasRealSurface => fl.(hasRealSurface := v)
    case EglInitialized => fl.(eglInitialized := v)
    case EglHasSurface => fl.(eglHasSurface := v)
    case EglBound => fl.(eglBound := v)
  }

  /** With replaces the one flag it names and keeps all the others. */
  lemma WithChangesOne(fl: Flags, f: Flag, v: bool)
    ensures Get(With(fl, f, v), f) == v
    ensures forall g :: g != f ==> Get(With(fl, f, v), g) == Get(fl, g)
  {
  }

  const NoFlags := Flags(false, false, false, false, false, false, false)

  /** The seven flags a status word holds. */
  function Decode(s: bv32): Flags
  {
    Flags(Query(s, RUNNING), Query(s, ACTIVE), Query(s, FOCUSED), Query(s, HAS_REAL_SURFACE),
          Query(s, EGL_INITIALIZED), Query(s, EGL_HAS_SURFACE), Query(s, EGL_BOUND))
  }

  /** Each flag of a decoded word is the single-bit query of its mask. */
  lemma DecodeGet(s: bv32, f: Flag)
    ensures Get(Decode(s), f) == Query(s, Mask(f))
  {
  }

  /** Running, Active, Focused and HasRealSurface all hold. */
  predicate Interactable(fl: Flags)
  {
    fl.running && fl.active && fl.focused && fl.hasRealSurface
  }

  /** The masked test on the word and the test on its flags agree. */
  lemma InteractableDecoded(s: bv32)
    ensures IsInteractable(s) == Interactable(Decode(s))
  {
  }

  /** One of the status-word updates the bridge performs. */
  datatype FlagOp = SetFlag(f: Flag) | ClearFlag(f: Flag) | ZeroFlags

  function Apply(s: bv32, op: FlagOp): bv32
  {
    match op
    case SetFlag(f) => Set(s, Mask(f))
    case ClearFlag(f) => Clear(s, Mask(f))
    case ZeroFlags => 0
  }

  function ApplyFlags(fl: Flags, op: FlagOp): Flags
  {
    match op
    case SetFlag(f) => With(fl, f, true)
    case ClearFlag(f) => With(fl, f, false)
    case ZeroFlags => NoFlags
  }

  function Run(s: bv32, ops: seq<FlagOp>): bv32
    decreases |ops|
  {
    if ops == [] then s else Run(Apply(s, ops[0]), ops[1..])
  }

  function RunFlags(fl: Flags, ops: seq<FlagOp>): Flags
    decreases |ops|
  {
    if ops == [] then fl else RunFlags(ApplyFlags(fl, ops[0]), ops[1..])
  }

  /** Setting one flag changes that flag alone. */
  lemma SetOneFlag(s: bv32, f: Flag)
    ensures Decode(Set(s, Mask(f))) == With(Decode(s), f, true)
  {
    forall g: Flag
      ensures Query(Set(s, Mask(f)), Mask(g)) == (if g == f then true else Query(s, Mask(g)))
    {
      SetBitAt(s, f, g);
    }
    DecodeOneChanged(s, Set(s, Mask(f)), f, true);
  }

  /** Clearing one flag changes that flag alone. */
  lemma ClearOneFlag(s: bv32, f: Flag)
    ensures Decode(Clear(s, Mask(f))) == With(Decode(s), f, false)
  {
    forall g: Flag
      ensures Query(Clear(s, Mask(f)), Mask(g)) == (if g == f then false else Query(s, Mask(g)))
    {
      ClearBitAt(s, f, g);
    }
    DecodeOneChanged(s, Clear(s, Mask(f)), f, false);
  }

  /** Two words whose single-flag queries differ at most at `f`, where the
      second reads `v`, decode to flag records that differ at most at `f`. */
  lemma DecodeOneChanged(s: bv32, t: bv32, f: Flag, v: bool)
    requires forall g :: Query(t, Mask(g)) == (if g == f then v else Query(s, Mask(g)))
    ensures Decode(t) == With(Decode(s), f, v)
  {
    forall g: Flag
      ensures Get(Decode(t), g) == Get(With(Decode(s), f, v), g)
    {
      WithChangesOne(Decode(s), f, v);
      DecodeGet(t, g);
      DecodeGet(s, g);
    }
    FlagsEqual(Decode(t), With(Decode(s), f, v));
  }

  /** After setting flag `f`, the query for `g` holds if `g` is `f` and is
      unchanged otherwise. */
  lemma SetBitAt(s: bv32, f: Flag, g: Flag)
    ensures Query(Set(s, Mask(f)), Mask(g)) == (g == f || Query(s, Mask(g)))
  {
    if g == f {
      SetSameBit(s, f);
    } else {
      SetOtherBit(s, f, g);
    }
  }

  /** After clearing flag `f`, the query for `g` fails if `g` is `f` and is
      unchanged otherwise. */
  lemma ClearBitAt(s: bv32, f: Flag, g: Flag)
    ensures Query(Clear(s, Mask(f)), Mask(g)) == (g != f && Query(s, Mask(g)))
  {
    if g == f {
      ClearSameBit(s, f);
    } else {
      ClearOtherBit(s, f, g);
    }
  }

  lemma SetSameBit(s: bv32, f: Flag)
    ensures Query(Set(s, Mask(f)), Mask(f))
  {
    SetOnlyMask(s, Mask(f));
    MaskNonZero(f);
  }

  lemma SetOtherBit(s: bv32, f: Flag, g: Flag)
    requires f != g
    ensures Query(Set(s, Mask(f)), Mask(g)) == Query(s, Mask(g))
  {
    MasksDisjoint(f, g);
    QuerySetKeeps(s, Mask(f), Mask(g));
  }

  lemma ClearSameBit(s: bv32, f: Flag)
    ensures !Query(Clear(s, Mask(f)), Mask(f))
  {
    ClearOnlyMask(s, Mask(f));
  }

  lemma ClearOtherBit(s: bv32, f: Flag, g: Flag)
    requires f != g
    ensures Query(Clear(s, Mask(f)), Mask(g)) == Query(s, Mask(g))
  {
    MasksDisjoint(f, g);
    QueryClearKeeps(s, Mask(f), Mask(g));
  }

  /** Setting the bits of `m` does not change the query of a disjoint mask.
      Stated as an implication, so that a caller has no bit-vector
      precondition to discharge. */
  lemma QuerySetKeeps(s: bv32, m: bv32, n: bv32)
    ensures m & n == 0 ==> Query(Set(s, m), n) == Query(s, n)
  {
    if m & n == 0 {
      SetKeepsQuery(s, m, n);
    }
  }

  lemma SetKeepsQuery(s: bv32, m: bv32, n: bv32)
    requires m & n == 0
    ensures Query(Set(s, m), n) == Query(s, n)
  {
    SetKeepsOther(s, m, n);
  }

  /** Setting the bits of `m` leaves the bits of a disjoint mask `n` as they were. */
  lemma SetKeepsOther(s: bv32, m: bv32, n: bv32)
    requires m & n == 0
    ensures Set(s, m) & n == s & n
  {
  }

  /** Clearing the bits of `m` does not change the query of a disjoint mask.
      Stated as an implication, so that a caller has no bit-vector
      precondition to discharge. */
  lemma QueryClearKeeps(s: bv32, m: bv32, n: bv32)
    ensures m & n == 0 ==> Query(Clear(s, m), n) == Query(s, n)
  {
    if m & n == 0 {
      ClearKeepsQuery(s, m, n);
    }
  }

  lemma ClearKeepsQuery(s: bv32, m: bv32, n: bv32)
    requires m & n == 0
    ensures Query(Clear(s, m), n) == Query(s, n)
  {
    ClearKeepsOther(s, m, n);
  }

  /** Clearing the bits of `m` leaves the bits of a disjoint mask `n` as they were. */
  lemma ClearKeepsOther(s: bv32, m: bv32, n: bv32)
    requires m & n == 0
    ensures Clear(s, m) & n == s & n
  {
  }

  lemma MaskNonZero(f: Flag)
    ensures Mask(f) != 0
  {
  }

  /** Distinct flags have disjoint bits. */
  lemma MasksDisjoint(f: Flag, g: Flag)
    requires f != g
    ensures Mask(f) & Mask(g) == 0
  {
  }

  /** Two flag records that agree on every flag are equal. */
  lemma FlagsEqual(a: Flags, b: Flags)
    requires forall g :: Get(a, g) == Get(b, g)
    ensures a == b
  {
    assert Get(a, Running) == Get(b, Running) && Get(a, Active) == Get(b, Active);
    assert Get(a, Focused) == Get(b, Focused) && Get(a, HasRealSurface) == Get(b, HasRealSurface);
    assert Get(a, EglInitialized) == Get(b, EglInitialized) && Get(a, EglHasSurface) == Get(b, EglHasSurface);
    assert Get(a, EglBound) == Get(b, EglBound);
  }

  lemma ApplyCommutes(s: bv32, op: FlagOp)
    ensures Decode(Apply(s, op)) == ApplyFlags(Decode(s), op)
  {
    match op
    case SetFlag(f) => SetOneFlag(s, f);
    case ClearFlag(f) => ClearOneFlag(s, f);
    case ZeroFlags =>
  }

  /** Any sequence of set/clear/zero operations on the word is the same
      sequence of updates on the seven booleans. */
  lemma {:induction false} RunCommutes(s: bv32, ops: seq<FlagOp>)
    ensures Decode(Run(s, ops)) == RunFlags(Decode(s), ops)
    decreases |ops|
  {
    if ops != [] {
      ApplyCommutes(s, ops[0]);
      RunCommutes(Apply(s, ops[0]), ops[1..]);
    }
  }

  /** After any sequence of flag updates, the word is interactable iff the four
      lifecycle booleans hold, whatever the EGL booleans are. */
  lemma InteractableAfterRun(s: bv32, ops: seq<FlagOp>)
    ensures var fl := RunFlags(Decode(s), ops);
            IsInteractable(Run(s, ops)) <==> Interactable(fl)
  {
    RunCommutes(s, ops);
  }
}
