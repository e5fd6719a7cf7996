/**
 * The protocol layer shared by generators, coroutines and async generators:
 * one `Coro` object drives an execution frame through `send`, `throw` and
 * `close`, guards against reentrant resumption, saves and restores its own
 * exception across each resumption, and translates what the frame did into
 * the iteration protocol.
 *
 * The frame and the runtime's exception stack are collaborators whose code
 * is not part of this model: `Frame` replays a fixed behaviour function
 * (an oracle), and `Vm` holds the exception stack as a plain sequence.
 */
module Coroutines {
  import opened Common

  /** The class of the generator object: it picks the display name and the
    * termination signals `send` treats as a bug in the guest code. */
  datatype Kind = Generator | Coroutine | AsyncGenerator

  /** The label used in error messages and in `repr`. */
  function GenName(kind: Kind): string
  {
    match kind
    case Coroutine => "coroutine"
    case AsyncGenerator => "async generator"
    case Generator => "generator"
  }

  lemma GenNameInjective(k1: Kind, k2: Kind)
    ensures GenName(k1) == GenName(k2) <==> k1 == k2
  {
  }

  /** Guest values, as far as the core distinguishes them: `None`, any other
    * object, and the `GeneratorExit` class object that `close` injects. */
  datatype Value = PyNone | PyObj(id: nat) | GeneratorExitType

  /** What one run of the frame produced when it did not raise. */
  datatype ExecutionResult = Yield(value: Value) | Return(value: Value)

  /** The iteration-protocol result: a produced value, or the end of the
    * iteration with an optional return value (`PyIterReturn::Return` and
    * `PyIterReturn::StopIteration`). */
  datatype PyIterReturn = IterValue(value: Value) | IterStop(arg: Option<Value>)

  /** `ExecutionResult::into_iter_return`. */
  function IntoIterReturn(res: ExecutionResult): PyIterReturn
  {
    match res
    case Yield(v) => IterValue(v)
    case Return(v) => IterStop(if v.PyNone? then None else Some(v))
  }

  /** Reads an iteration result back as the frame outcome it came from. */
  function FromIterReturn(it: PyIterReturn): ExecutionResult
  {
    match it
    case IterValue(v) => Yield(v)
    case IterStop(None) => Return(PyNone)
    case IterStop(Some(v)) => Return(v)
  }

  /** The translation loses nothing: a yielded value stays a produced value,
    * a returned `None` becomes a bare stop and any other returned value is
    * carried by the stop; a stop never carries `None` explicitly. */
  lemma IntoIterReturnRoundTrip(res: ExecutionResult)
    ensures FromIterReturn(IntoIterReturn(res)) == res
    ensures IntoIterReturn(res).IterValue? <==> res.Yield?
    ensures IntoIterReturn(res) != IterStop(Some(PyNone))
  {
  }

  /** `is_gen_exit`. */
  predicate IsGenExit(e: Exc)
  {
    e.GeneratorExit?
  }

  /** The error a resumption reports when the object is already running. */
  function AlreadyExecuting(kind: Kind): Exc
  {
    ValueError(GenName(kind) + " already executing")
  }

  /** `maybe_close`'s test: a return and any error end the computation. */
  predicate ClosesOn(res: Result<ExecutionResult>)
  {
    res.Err? || res.value.Return?
  }

  /** The termination signal that `send` refuses to let escape from the
    * guest: `StopIteration` always, `StopAsyncIteration` for an async
    * generator. */
  predicate IsOwnTerminationSignal(kind: Kind, e: Exc)
  {
    e.StopIteration? || (kind == AsyncGenerator && e.StopAsyncIteration?)
  }

  /** The error re-wrapping done by `send` only. */
  function Rewrap(kind: Kind, e: Exc): (r: Exc)
    ensures !IsOwnTerminationSignal(kind, r)
  {
    if e.StopIteration? then
      RuntimeError(GenName(kind) + " raised StopIteration", Some(e))
    else if kind == AsyncGenerator && e.StopAsyncIteration? then
      RuntimeError("async generator raised StopAsyncIteration", Some(e))
    else
      e
  }

  /** A termination signal is replaced by a `RuntimeError` whose cause is the
    * signal; every other error passes through untouched. */
  lemma RewrapChangesOnlyTerminationSignals(kind: Kind, e: Exc)
    ensures IsOwnTerminationSignal(kind, e) ==>
      Rewrap(kind, e).RuntimeError? && Rewrap(kind, e).cause == Some(e)
    ensures !IsOwnTerminationSignal(kind, e) ==> Rewrap(kind, e) == e
    ensures Rewrap(kind, e) == e <==> !IsOwnTerminationSignal(kind, e)
    ensures e.StopIteration? ==>
      Rewrap(kind, e) == RuntimeError(GenName(kind) + " raised StopIteration", Some(e))
    ensures kind == AsyncGenerator && e.StopAsyncIteration? ==>
      Rewrap(kind, e) == RuntimeError("async generator raised StopAsyncIteration", Some(e))
  {
  }

  /** What `send` returns for what the frame did. */
  function SendResult(kind: Kind, res: Result<ExecutionResult>): (r: Result<PyIterReturn>)
    ensures r.Ok? <==> res.Ok?
    ensures r.Err? ==> !IsOwnTerminationSignal(kind, r.error)
  {
    match res
    case Ok(er) => Ok(IntoIterReturn(er))
    case Err(e) => Err(Rewrap(kind, e))
  }

  /** What `throw` returns for what the frame did: no re-wrapping. */
  function ThrowResult(res: Result<ExecutionResult>): Result<PyIterReturn>
  {
    match res
    case Ok(er) => Ok(IntoIterReturn(er))
    case Err(e) => Err(e)
  }

  /** `throw` lets every error through as it is, even the termination
    * signals that `send` would have re-wrapped. */
  lemma ThrowDoesNotRewrap(kind: Kind, res: Result<ExecutionResult>)
    requires res.Err?
    ensures ThrowResult(res) == Err(res.error)
    ensures IsOwnTerminationSignal(kind, res.error) ==> SendResult(kind, res) != ThrowResult(res)
  {
  }

  /** What `close` returns for what the frame did after GeneratorExit was
    * thrown into it. */
  function CloseResult(kind: Kind, res: Result<ExecutionResult>): (r: Outcome)
    ensures r == Pass <==> (res.Ok? && res.value.Return?) || (res.Err? && IsGenExit(res.error))
    ensures res.Err? && !IsGenExit(res.error) ==> r == Fail(res.error)
    ensures res.Ok? && res.value.Yield? ==> r == Fail(RuntimeError(GenName(kind) + " ignored GeneratorExit", None))
  {
    match res
    case Ok(Yield(_)) => Fail(RuntimeError(GenName(kind) + " ignored GeneratorExit", None))
    case Err(e) => if !IsGenExit(e) then Fail(e) else Pass
    case Ok(Return(_)) => Pass
  }

  /** The two ways the frame is entered. */
  datatype FrameCall =
    | Resume(arg: Option<Value>)
    | GenThrow(excType: Value, excVal: Value, excTb: Value)

  /** A call the guest body makes on its own generator object while it runs. */
  datatype Reentry =
    | SendBack(value: Value)
    | ThrowBack(excType: Value, excVal: Value, excTb: Value)
    | CloseBack

  /**
   * The scripted outcome of one run of the frame: what it returned or
   * raised, where its instruction cursor stands afterwards, the exception
   * it leaves as the current one, and the reentrant call (if any) that its
   * body makes on its own generator during the run.
   */
  datatype FrameStep = FrameStep(
    result: Result<ExecutionResult>,
    lastiAfter: nat,
    excOnExit: Option<Exc>,
    reentry: Option<Reentry>)

  /**
   * The parts of the virtual machine the core uses: the stack of currently
   * handled exceptions, and `normalize_exception`, which turns the three
   * arguments of `throw` into one exception object (its code is not part of
   * this model).
   */
  class Vm {
    var stack: seq<Option<Exc>>
    const normalize: (Value, Value, Value) -> Exc

    constructor (normalize: (Value, Value, Value) -> Exc)
      ensures stack == [] && this.normalize == normalize
    {
      stack := [];
      this.normalize := normalize;
    }

    /** The exception the running code currently sees. */
    function Current(): Option<Exc>
      reads this
    {
      if stack == [] then None else stack[|stack| - 1]
    }

    method PushException(e: Option<Exc>)
      modifies this
      ensures stack == old(stack) + [e]
    {
      stack := stack + [e];
    }

    method PopException() returns (e: Option<Exc>)
      modifies this
      ensures old(stack) == [] ==> e == None && stack == []
      ensures old(stack) != [] ==> e == old(stack[|stack| - 1]) && stack == old(stack[..|stack| - 1])
    {
      if stack == [] {
        e := None;
      } else {
        e := stack[|stack| - 1];
        stack := stack[..|stack| - 1];
      }
    }

    method SetCurrent(e: Option<Exc>)
      requires stack != []
      modifies this
      ensures stack == old(stack[..|stack| - 1]) + [e]
    {
      stack := stack[..|stack| - 1] + [e];
    }
  }

  /**
   * An execution frame whose code is not part of this model. Its behaviour
   * is a fixed function of how many times it has been entered, how it is
   * entered, and the exception that is current when it starts.
   */
  class Frame {
    var lasti: nat
    var calls: nat
    const behaviour: (nat, FrameCall, Option<Exc>) -> FrameStep

    constructor (behaviour: (nat, FrameCall, Option<Exc>) -> FrameStep)
      ensures this.behaviour == behaviour && lasti == 0 && calls == 0
    {
      this.behaviour := behaviour;
      lasti := 0;
      calls := 0;
    }

    /** What the next run will do. */
    function Next(call: FrameCall, active: Option<Exc>): FrameStep
      reads this
    {
      behaviour(calls, call, active)
    }

    /** Runs the frame once (`vm.with_frame` around `resume` / `gen_throw`):
      * it sees the current exception and leaves its own in its place. */
    method Execute(call: FrameCall, vm: Vm) returns (step: FrameStep)
      requires vm.stack != []
      modifies this, vm
      ensures step == old(Next(call, vm.Current()))
      ensures lasti == step.lastiAfter && calls == old(calls) + 1
      ensures vm.stack == old(vm.stack[..|vm.stack| - 1]) + [step.excOnExit]
    {
      step := behaviour(calls, call, vm.Current());
      lasti := step.lastiAfter;
      calls := calls + 1;
      vm.SetCurrent(step.excOnExit);
    }
  }

  /** Whether a reentrant call, made while the object is running and its
    * frame stands at `lasti`, closes the object: `send` first answers a
    * just-started frame's non-None value with a TypeError and closes
    * nothing, everything else fails in `run_with_context` and is closed by
    * `maybe_close` / `close`. */
  predicate ReentryCloses(op: Option<Reentry>, lasti: nat)
  {
    match op
    case None => false
    case Some(SendBack(v)) => lasti > 0 || v.PyNone?
    case Some(_) => true
  }

  /** The generator / coroutine / async generator object state. */
  class Coro {
    const frame: Frame
    var closed: bool
    var running: bool
    var name: string
    var exception: Option<Exc>

    constructor (frame: Frame, name: string)
      ensures this.frame == frame && this.name == name
      ensures !closed && !running && exception == None
    {
      this.frame := frame;
      this.name := name;
      closed := false;
      running := false;
      exception := None;
    }

    /** Only `closed` may have changed. */
    twostate predicate OnlyClosedChanged(vm: Vm)
      reads this, frame, vm
    {
      && running == old(running) && exception == old(exception) && name == old(name)
      && unchanged(frame, vm)
    }

    /** The state after a resumption that entered the frame once and ran
      * `step`: the guard is released, the slot holds the exception popped
      * off the stack, the caller's exception stack is as before. */
    twostate predicate Resumed(vm: Vm, step: FrameStep)
      reads this, frame, vm
    {
      && !running && exception == step.excOnExit && name == old(name)
      && vm.stack == old(vm.stack)
      && frame.lasti == step.lastiAfter && frame.calls == old(frame.calls) + 1
    }

    method MaybeClose(res: Result<ExecutionResult>)
      modifies this`closed
      ensures closed == (old(closed) || ClosesOn(res))
    {
      match res
      case Ok(Return(_)) => closed := true;
      case Err(_) => closed := true;
      case Ok(Yield(_)) =>
    }

    /** `run_with_context`: guard, push the saved exception, run the frame,
      * pop the exception back into the slot, release the guard. */
    method RunWithContext(kind: Kind, call: FrameCall, vm: Vm) returns (res: Result<ExecutionResult>)
      modifies this, frame, vm
      decreases if running then 0 else 1, 1
      ensures old(running) ==> res == Err(AlreadyExecuting(kind)) && unchanged(this, frame, vm)
      ensures !old(running) ==>
        var step := old(frame.Next(call, exception));
        && res == step.result
        && closed == (old(closed) || ReentryCloses(step.reentry, step.lastiAfter))
        && Resumed(vm, step)
    {
      if running {
        return Err(AlreadyExecuting(kind));
      }
      running := true;
      var saved := exception;
      exception := None;
      vm.PushException(saved);
      var step := frame.Execute(call, vm);
      if step.reentry.Some? {
        Reenter(kind, step.reentry.value, vm);
      }
      exception := vm.PopException();
      running := false;
      res := step.result;
    }

    /** The guest body calling back into its own object while it runs. */
    method Reenter(kind: Kind, op: Reentry, vm: Vm)
      requires running
      modifies this, frame, vm
      decreases if running then 0 else 1, 3
      ensures closed == (old(closed) || ReentryCloses(Some(op), frame.lasti))
      ensures OnlyClosedChanged(vm)
    {
      match op
      case SendBack(v) =>
        var _ := Send(kind, v, vm);
      case ThrowBack(t, v, tb) =>
        var _ := Throw(kind, t, v, tb, vm);
      case CloseBack =>
        var _ := Close(kind, vm);
    }

    method Send(kind: Kind, value: Value, vm: Vm) returns (r: Result<PyIterReturn>)
      modifies this, frame, vm
      decreases if running then 0 else 1, 2
      ensures old(closed) ==> r == Ok(IterStop(None)) && unchanged(this, frame, vm)
      ensures !old(closed) && old(frame.lasti) == 0 && !value.PyNone? ==>
        && r == Err(TypeError("can't send non-None value to a just-started " + GenName(kind)))
        && unchanged(this, frame, vm)
      ensures !old(closed) && (old(frame.lasti) > 0 || value.PyNone?) && old(running) ==>
        r == Err(AlreadyExecuting(kind)) && closed && OnlyClosedChanged(vm)
      ensures !old(closed) && (old(frame.lasti) > 0 || value.PyNone?) && !old(running) ==>
        var step := old(frame.Next(Resume(if frame.lasti > 0 then Some(value) else None), exception));
        && r == SendResult(kind, step.result)
        && closed == (ClosesOn(step.result) || ReentryCloses(step.reentry, step.lastiAfter))
        && Resumed(vm, step)
    {
      if closed {
        return Ok(IterStop(None));
      }
      var arg: Option<Value>;
      if frame.lasti > 0 {
        arg := Some(value);
      } else if !value.PyNone? {
        return Err(TypeError("can't send non-None value to a just-started " + GenName(kind)));
      } else {
        arg := None;
      }
      var res := RunWithContext(kind, Resume(arg), vm);
      MaybeClose(res);
      r := SendResult(kind, res);
    }

    method Throw(kind: Kind, excType: Value, excVal: Value, excTb: Value, vm: Vm)
      returns (r: Result<PyIterReturn>)
      modifies this, frame, vm
      decreases if running then 0 else 1, 2
      ensures old(closed) ==> r == Err(vm.normalize(excType, excVal, excTb)) && unchanged(this, frame, vm)
      ensures !old(closed) && old(running) ==>
        r == Err(AlreadyExecuting(kind)) && closed && OnlyClosedChanged(vm)
      ensures !old(closed) && !old(running) ==>
        var step := old(frame.Next(GenThrow(excType, excVal, excTb), exception));
        && r == ThrowResult(step.result)
        && closed == (ClosesOn(step.result) || ReentryCloses(step.reentry, step.lastiAfter))
        && Resumed(vm, step)
    {
      if closed {
        return Err(vm.normalize(excType, excVal, excTb));
      }
      var res := RunWithContext(kind, GenThrow(excType, excVal, excTb), vm);
      MaybeClose(res);
      r := ThrowResult(res);
    }

    method Close(kind: Kind, vm: Vm) returns (r: Outcome)
      modifies this, frame, vm
      decreases if running then 0 else 1, 2
      ensures old(closed) ==> r == Pass && unchanged(this, frame, vm)
      ensures closed
      ensures !old(closed) && old(running) ==> r == Fail(AlreadyExecuting(kind)) && OnlyClosedChanged(vm)
      ensures !old(closed) && !old(running) ==>
        var step := old(frame.Next(GenThrow(GeneratorExitType, PyNone, PyNone), exception));
        r == CloseResult(kind, step.result) && Resumed(vm, step)
    {
      if closed {
        return Pass;
      }
      var res := RunWithContext(kind, GenThrow(GeneratorExitType, PyNone, PyNone), vm);
      closed := true;
      r := CloseResult(kind, res);
    }

    method SetName(newName: string)
      modifies this`name
      ensures name == newName
    {
      name := newName;
    }

    /** `repr`: `<kind object name at 0x...>`, the identity in lower-case
      * hexadecimal with the `0x` prefix of Rust's `{:#x}`. */
    function Repr(kind: Kind, id: nat): string
      reads this
    {
      "<" + GenName(kind) + " object " + name + " at 0x" + Hex(id) + ">"
    }
  }

  function HexDigit(d: nat): (c: char)
    requires d < 16
  {
    "0123456789abcdef"[d]
  }

  function HexValue(c: char): nat
  {
    if '0' <= c <= '9' then c as nat - '0' as nat
    else if 'a' <= c <= 'f' then c as nat - 'a' as nat + 10
    else 0
  }

  /** Rust's `{:x}` rendering of an unsigned number: no leading zeros. */
  function Hex(n: nat): (s: string)
    decreases n
  {
    if n < 16 then [HexDigit(n)] else Hex(n / 16) + [HexDigit(n % 16)]
  }

  function ParseHex(s: string): nat
  {
    if s == [] then 0 else ParseHex(s[..|s| - 1]) * 16 + HexValue(s[|s| - 1])
  }

  /** The identity printed by `repr` is made of lower-case hexadecimal
    * digits, can be read back, and has no leading zero digit unless it is
    * zero. */
  lemma {:induction false} HexRoundTrip(n: nat)
    ensures forall i :: 0 <= i < |Hex(n)| ==> Hex(n)[i] in "0123456789abcdef"
    ensures ParseHex(Hex(n)) == n
    ensures |Hex(n)| > 0 && (Hex(n)[0] == '0' <==> n == 0)
    decreases n
  {
    if n >= 16 {
      HexRoundTrip(n / 16);
      var s := Hex(n);
      assert s[..|s| - 1] == Hex(n / 16);
      assert s[0] == Hex(n / 16)[0];
      forall i | 0 <= i < |s|
        ensures s[i] in "0123456789abcdef"
      {
        if i < |s| - 1 {
          assert s[i] == Hex(n / 16)[i];
        }
      }
    }
  }

  /** A frame that yields 7 on its first run and returns `"done"` (an object
    * id standing for the string) on its second. */
  function YieldThenReturn(calls: nat, call: FrameCall, active: Option<Exc>): FrameStep
  {
    if calls == 0 then FrameStep(Ok(Yield(PyObj(7))), 1, active, None)
    else FrameStep(Ok(Return(PyObj(100))), 2, active, None)
  }

  method YieldThenReturnScenario()
  {
    var vm := new Vm((t, v, tb) => Other(0));
    var frame := new Frame(YieldThenReturn);
    var g := new Coro(frame, "gen");
    var r1 := g.Send(Generator, PyNone, vm);
    assert r1 == Ok(IterValue(PyObj(7))) && !g.closed;
    var r2 := g.Send(Generator, PyNone, vm);
    assert r2 == Ok(IterStop(Some(PyObj(100)))) && g.closed;
    var r3 := g.Send(Generator, PyObj(1), vm);
    assert r3 == Ok(IterStop(None)) && frame.calls == 2;
    var r4 := g.Throw(Generator, PyObj(5), PyNone, PyNone, vm);
    assert r4 == Err(Other(0)) && frame.calls == 2;
  }

  /** A frame whose body, on its first run, sends `None` into its own
    * generator and then yields anyway. */
  function ReentrantYield(calls: nat, call: FrameCall, active: Option<Exc>): FrameStep
  {
    FrameStep(Ok(Yield(PyObj(1))), 1, active, Some(SendBack(PyNone)))
  }

  method ReentrantSendScenario()
  {
    var vm := new Vm((t, v, tb) => Other(0));
    var frame := new Frame(ReentrantYield);
    var g := new Coro(frame, "gen");
    var r := g.Send(Generator, PyNone, vm);
    assert r == Ok(IterValue(PyObj(1)));
    assert g.closed && !g.running;
  }
}
