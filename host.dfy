/** The Java side of the bridge, seen from native code: the methods of the
    activity fragment that the native code calls up into. Their results are
    not modelled; a script of booleans supplies them, so every property
    proved about a caller holds for every behaviour of the Java side. */
module Host {

  /** A call from native code into a Java method. */
  datatype HostCall =
    | InitEGL
    | CleanupEGL
    | CreateSurfaceEGL
    | CreateOffScreenSurfaceEGL(width: int, height: int)
    | DestroySurfaceEGL
    | SwapBuffersEGL
    | BindSurfaceAndContextEGL
    | UnbindSurfaceAndContextEGL
    | Finish
    | ReportUnsupported
    | OnRenderingInitialized

  /** The answer a boolean call receives from `script`. An exhausted script
      stands for a method that cannot be called (no JNI environment, or a
      method id that was never resolved): such a call reports false. */
  predicate Answer(script: seq<bool>)
  {
    script != [] && script[0]
  }

  /** `script` after `n` boolean calls have taken their answers. */
  function Consume(script: seq<bool>, n: nat): (r: seq<bool>)
    ensures n <= |script| ==> |r| == |script| - n
    ensures n >= |script| ==> r == []
  {
    if n <= |script| then script[n..] else []
  }

  /** The answers left after `n` are those of `script` from position `n` on. */
  lemma ConsumeSkips(script: seq<bool>, n: nat)
    ensures forall i :: 0 <= i < |Consume(script, n)| ==> Consume(script, n)[i] == script[n + i]
  {
  }

  lemma ConsumeTwice(script: seq<bool>, n: nat, m: nat)
    ensures Consume(Consume(script, n), m) == Consume(script, n + m)
  {
  }

  /** Logging `x` and then `y` logs `x + y`. */
  lemma LogTwice(log: seq<HostCall>, x: seq<HostCall>, y: seq<HostCall>)
    ensures log + x + y == log + (x + y)
  {
  }

  /** The Java side: the answers still to be given and every call received. */
  class Provider {
    var script: seq<bool>
    var log: seq<HostCall>

    constructor (script: seq<bool>)
      ensures this.script == script && log == []
    {
      this.script := script;
      log := [];
    }

    /** A call to a Java method returning boolean. */
    method CallBoolean(c: HostCall) returns (ok: bool)
      modifies this
      ensures ok == Answer(old(script))
      ensures script == Consume(old(script), 1)
      ensures log == old(log) + [c]
    {
      ok := Answer(script);
      script := Consume(script, 1);
      log := log + [c];
    }

    /** A call to a Java method returning void. */
    method CallVoid(c: HostCall)
      modifies this`log
      ensures log == old(log) + [c]
    {
      log := log + [c];
    }
  }
}
