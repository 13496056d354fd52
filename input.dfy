/** Translation of Android input notifications into bridge events: the
    multi-touch action encoding and the key-repeat suppression. */
module Input {

  /** The `MotionEvent` constants the bridge reads when it is created. */
  datatype AndroidActions = AndroidActions(down: bv32, up: bv32, cancel: bv32, pointerIndexMask: bv32)

  /** The bridge's own multi-touch action codes. */
  datatype MultiTouchCodes = MultiTouchCodes(down: bv32, up: bv32, move: bv32, cancel: bv32)

  /** NV_MULTITOUCH_POINTER_SHIFT: the pointer-presence mask sits above the
      low byte of an encoded action. */
  const POINTER_SHIFT: bv32 := 8
  const ACTION_MASK: bv32 := 0xff

  /** Every action code fits below the pointer mask. */
  predicate ValidCodes(m: MultiTouchCodes)
  {
    m.down <= ACTION_MASK && m.up <= ACTION_MASK && m.move <= ACTION_MASK && m.cancel <= ACTION_MASK
  }

  /** Bit 0 says the first pointer is present, bit 1 the second. */
  function PointerMask(hasFirst: bool, hasSecond: bool): (r: bv32)
    ensures r < 4
    ensures (r & 1 != 0) == hasFirst
    ensures (r & 2 != 0) == hasSecond
  {
    (if hasFirst then 1 else 0) | (if hasSecond then 2 else 0)
  }

  /** The bridge's action code for an Android action with its pointer index
      stripped: up, down and cancel are recognised in that order, and anything
      else is a move. */
  function BaseAction(actionOnly: bv32, a: AndroidActions, m: MultiTouchCodes): bv32
  {
    if actionOnly == a.up then m.up
    else if actionOnly == a.down then m.down
    else if actionOnly == a.cancel then m.cancel
    else m.move
  }

  /** The classification BaseAction makes: each recognised Android action gets
      its own code, the first match winning, and every other action is a move. */
  lemma BaseActionCases(actionOnly: bv32, a: AndroidActions, m: MultiTouchCodes)
    ensures BaseAction(actionOnly, a, m) in {m.up, m.down, m.cancel, m.move}
    ensures actionOnly == a.up ==> BaseAction(actionOnly, a, m) == m.up
    ensures actionOnly == a.down && a.down != a.up ==> BaseAction(actionOnly, a, m) == m.down
    ensures actionOnly == a.cancel && a.cancel != a.up && a.cancel != a.down
            ==> BaseAction(actionOnly, a, m) == m.cancel
    ensures actionOnly !in {a.up, a.down, a.cancel} ==> BaseAction(actionOnly, a, m) == m.move
  {
  }

  /** The encoded multi-touch action: the base action code in the low bits,
      the pointer-presence mask shifted above it. */
  function MultiTouchAction(action: bv32, a: AndroidActions, m: MultiTouchCodes,
                            hasFirst: bool, hasSecond: bool): bv32
  {
    Pack(BaseAction(action & !a.pointerIndexMask, a, m), PointerMask(hasFirst, hasSecond))
  }

  /** An action code with a pointer mask shifted above it. */
  function Pack(code: bv32, mask: bv32): bv32
  {
    code | (mask << POINTER_SHIFT)
  }

  // How the application reads an encoded action back.

  function ActionCodeOf(r: bv32): bv32
  {
    r & ACTION_MASK
  }

  predicate HasFirstPointer(r: bv32)
  {
    (r >> POINTER_SHIFT) & 1 != 0
  }

  predicate HasSecondPointer(r: bv32)
  {
    (r >> POINTER_SHIFT) & 2 != 0
  }

  /** Decoding an encoded action gives back the base action, both presence
      flags, and nothing else above the mask. */
  lemma MultiTouchRoundTrip(action: bv32, a: AndroidActions, m: MultiTouchCodes,
                            hasFirst: bool, hasSecond: bool)
    requires ValidCodes(m)
    ensures var r := MultiTouchAction(action, a, m, hasFirst, hasSecond);
            && ActionCodeOf(r) == BaseAction(action & !a.pointerIndexMask, a, m)
            && HasFirstPointer(r) == hasFirst
            && HasSecondPointer(r) == hasSecond
            && r >> POINTER_SHIFT == PointerMask(hasFirst, hasSecond)
  {
    CodeReadBack(action, a, m, hasFirst, hasSecond);
    MaskReadBack(action, a, m, hasFirst, hasSecond);
  }

  lemma CodeReadBack(action: bv32, a: AndroidActions, m: MultiTouchCodes,
                     hasFirst: bool, hasSecond: bool)
    requires ValidCodes(m)
    ensures ActionCodeOf(MultiTouchAction(action, a, m, hasFirst, hasSecond))
            == BaseAction(action & !a.pointerIndexMask, a, m)
  {
    BaseActionFits(action & !a.pointerIndexMask, a, m);
    PackUnpack(BaseAction(action & !a.pointerIndexMask, a, m), PointerMask(hasFirst, hasSecond));
  }

  lemma MaskReadBack(action: bv32, a: AndroidActions, m: MultiTouchCodes,
                     hasFirst: bool, hasSecond: bool)
    requires ValidCodes(m)
    ensures var r := MultiTouchAction(action, a, m, hasFirst, hasSecond);
            && HasFirstPointer(r) == hasFirst
            && HasSecondPointer(r) == hasSecond
            && r >> POINTER_SHIFT == PointerMask(hasFirst, hasSecond)
  {
    var code := BaseAction(action & !a.pointerIndexMask, a, m);
    var mask := PointerMask(hasFirst, hasSecond);
    BaseActionFits(action & !a.pointerIndexMask, a, m);
    PackUnpack(code, mask);
  }

  lemma BaseActionFits(actionOnly: bv32, a: AndroidActions, m: MultiTouchCodes)
    requires ValidCodes(m)
    ensures BaseAction(actionOnly, a, m) <= ACTION_MASK
  {
  }

  /** A code of one byte and a two-bit mask shifted above it can both be read
      back from their union. */
  lemma PackUnpack(code: bv32, mask: bv32)
    requires code <= ACTION_MASK && mask < 4
    ensures ActionCodeOf(Pack(code, mask)) == code
    ensures HasFirstPointer(Pack(code, mask)) == (mask & 1 != 0)
    ensures HasSecondPointer(Pack(code, mask)) == (mask & 2 != 0)
    ensures (Pack(code, mask)) >> POINTER_SHIFT == mask
  {
  }

  /** The previous mapped key event (statics of the key handler). */
  datatype KeyMemory = KeyMemory(lastAction: bv32, lastCode: int)

  /** A mapped key is forwarded unless its code is the null key code
      `nullCode` (a value the key mapping may yield) or it repeats the
      previous mapped key with the same action. */
  predicate ForwardsKey(k: KeyMemory, nullCode: int, action: bv32, code: int)
  {
    code != nullCode && (code != k.lastCode || action != k.lastAction)
  }

  /** A key event that repeats the one just recorded is suppressed, and a
      non-null one that differs in code or action is forwarded. */
  lemma RepeatSuppressed(k: KeyMemory, nullCode: int, action: bv32, code: int)
    ensures !ForwardsKey(KeyMemory(action, code), nullCode, action, code)
    ensures code != nullCode && KeyMemory(action, code) != k ==> ForwardsKey(k, nullCode, action, code)
  {
  }
}
