/** Properties of the Intcode interpreter that relate several calls: the
    decoder against an encoder, reads against writes, and the suspend/resume
    driver against a one-shot reference semantics that collects every output. */
module IntcodeRun {
  import opened Wrappers
  import opened Intcode
  import RustInt

  // ===========================================================================
  // Decoding

  /** The opcode and the three mode digits of a word are read back from the
      places they were written to. */
  lemma FieldsOf(c: int, d0: nat, d1: nat, d2: nat)
    requires 0 <= c < 100 && d0 <= 2 && d1 <= 2 && d2 <= 2
    ensures var w := c + d0 * 100 + d1 * 1000 + d2 * 10000;
      && RustInt.Rem(w, 100) == c
      && ModeField(w, 0) == d0 && ModeField(w, 1) == d1 && ModeField(w, 2) == d2
  {
    var w := c + d0 * 100 + d1 * 1000 + d2 * 10000;
    assert RustInt.Div(w, 100) == d0 + d1 * 10 + d2 * 100;
    assert RustInt.Div(d0 + d1 * 10 + d2 * 100, 10) == d1 + d2 * 10;
    assert RustInt.Div(w, 1000) == d1 + d2 * 10;
    assert RustInt.Div(d1 + d2 * 10, 10) == d2;
    assert RustInt.Div(w, 10000) == d2;
    assert RustInt.Div(d2, 10) == 0;
  }

  /** The mode digits of an instruction, first operand first, 0 past its arity. */
  function Digit(op: OpCode, k: nat): (d: nat)
    requires k < 3
    ensures d <= 2
    ensures k < Arity(op) ==> d == ModeDigit(Modes(op)[k])
  {
    if k < |Modes(op)| then ModeDigit(Modes(op)[k]) else 0
  }

  /** Two instructions with the same opcode and modes are the same. */
  lemma SameCodeSameModes(a: OpCode, b: OpCode)
    requires Code(a) == Code(b) && Modes(a) == Modes(b)
    ensures a == b
  {
  }

  /** Every instruction takes the operands its opcode calls for. */
  lemma ArityMatchesCode(op: OpCode)
    ensures Arity(op) == ArityOfCode(Code(op))
  {
  }

  /** Mode digits that spell out `ms` decode to `ms`. */
  lemma {:induction false} DecodeModesOf(w: int, ms: seq<ParamMode>)
    requires |ms| <= 3
    requires forall k :: 0 <= k < |ms| ==> ModeField(w, k) == ModeDigit(ms[k])
    ensures DecodeModes(w, |ms|) == Ok(ms)
  {
    if |ms| > 0 {
      var init := ms[..|ms| - 1];
      DecodeModesOf(w, init);
      assert ModeOf(ModeField(w, |ms| - 1)) == Ok(ms[|ms| - 1]);
      assert init + [ms[|ms| - 1]] == ms;
    }
  }

  /** A word with a known opcode whose consulted mode digits spell out `ms`
      decodes to the instruction with that opcode and those modes. */
  lemma DecodeOf(w: int, ms: seq<ParamMode>)
    requires KnownCode(RustInt.Rem(w, 100)) && |ms| == ArityOfCode(RustInt.Rem(w, 100))
    requires forall k :: 0 <= k < |ms| ==> ModeField(w, k) == ModeDigit(ms[k])
    ensures Decode(w) == Ok(Assemble(RustInt.Rem(w, 100), ms))
  {
    DecodeModesOf(w, ms);
  }

  /** Every instruction survives encoding and decoding. */
  lemma DecodeEncode(op: OpCode)
    ensures Decode(Encode(op)) == Ok(op)
  {
    var c, d0, d1, d2 := Code(op), Digit(op, 0), Digit(op, 1), Digit(op, 2);
    var w := c + d0 * 100 + d1 * 1000 + d2 * 10000;
    assert w == Encode(op);
    FieldsOf(c, d0, d1, d2);
    ArityMatchesCode(op);
    DecodeOf(w, Modes(op));
    SameCodeSameModes(Assemble(c, Modes(op)), op);
  }

  /** Because `%` truncates, a negative word never carries a known opcode. */
  lemma NegativeWordUnknown(w: int)
    requires w < 0
    ensures Decode(w) == Err(UnknownOpCode)
  {
    DecodeSpec(w);
  }

  // ===========================================================================
  // Memory

  /** A read after a write sees the written word at that address and the old
      contents everywhere else. */
  lemma ReadAfterWrite(p: Program, i: int, w: int, j: int)
    requires Write(p, i, w).Ok?
    ensures Read(Write(p, i, w).value, i) == Ok(w)
    ensures j != i ==> Read(Write(p, i, w).value, j) == Read(p, j)
  {
  }

  /** A position or relative operand reads the cell its address operand
      designates: operand resolution for reads and writes agree. */
  lemma OperandIsReadAtAddress(p: Program, offset: nat, mode: ParamMode)
    requires Guarded(p, offset) && mode != Immediate
    ensures ReadOperand(p, offset, mode).Ok? == Read(p, ReadAddrOperand(p, offset, mode).value).Ok?
    ensures ReadOperand(p, offset, mode).Ok? ==>
      ReadOperand(p, offset, mode).value == Read(p, ReadAddrOperand(p, offset, mode).value).value
  {
  }

  /** `is_halted` holds exactly when the next fetch would fail. */
  lemma IsHaltedIffFetchFails(p: Program, inputs: seq<int>)
    ensures IsHalted(p) <==> Step(p, inputs) == Err(IpOutOfBounds)
  {
  }

  // ===========================================================================
  // Reference semantics

  /** The program state a run halts in, with every output it emitted. */
  datatype Trace = Trace(program: Program, outputs: seq<int>)

  /** A one-instruction transition function; `Step` is the interpreter's.
      The loops below are stated for any such function, so that the proofs
      about them never need to look inside `Step`. */
  type Stepper = (Program, seq<int>) -> Result<Transition, Error>

  /** One-shot reference semantics: execute up to `fuel` instructions,
      collecting all outputs in order, until the halt instruction. */
  function Exec(step: Stepper, p: Program, inputs: seq<int>, fuel: nat): (r: Result<Trace, Error>)
    ensures r.Ok? ==> fuel > 0 && step(p, inputs).Ok?
    ensures r.Ok? && step(p, inputs).value.Stop? ==> r.value == Trace(p, [])
    decreases fuel
  {
    if fuel == 0 then Err(OutOfFuel)
    else
      var t :- step(p, inputs);
      match t
      case Continue(q, rest) => Exec(step, q, rest, fuel - 1)
      case Emit(q, rest, v) =>
        var tail :- Exec(step, q, rest, fuel - 1);
        Ok(Trace(tail.program, [v] + tail.outputs))
      case Stop => Ok(Trace(p, []))
  }

  /** The loop of `RunToSuspension` over an arbitrary transition function. */
  function Suspend(step: Stepper, p: Program, inputs: seq<int>, output: Option<int>, fuel: nat): Result<Paused, Error>
    decreases fuel
  {
    if fuel == 0 then Err(OutOfFuel)
    else
      var t :- step(p, inputs);
      match t
      case Continue(q, rest) => Suspend(step, q, rest, output, fuel - 1)
      case Emit(q, rest, v) => Ok(Paused(q, Running(rest, Some(v))))
      case Stop => Ok(Paused(p, Halted(output)))
  }

  /** The loop of `Drive` over an arbitrary transition function (without the
      empty-memory check, which never fires once a run has started). */
  function Resume(step: Stepper, s: Paused, fuel: nat): Result<Finished, Error>
    decreases fuel
  {
    match s.suspended
    case Halted(output) => Ok(Finished(s.program, output))
    case Running(inputs, output) =>
      if fuel == 0 then Err(OutOfFuel)
      else
        var next :- Suspend(step, s.program, inputs, output, fuel);
        Resume(step, next, fuel - 1)
  }

  /** A loop that runs a program to its next suspension. */
  type Suspender = (Program, seq<int>, Option<int>, nat) -> Result<Paused, Error>

  /** `run` takes one pass of the suspension loop over `step` at these
      arguments: out of fuel, or the first transition's error, or the rest
      of the run after a `Continue`, or the suspension an `Emit` or `Stop`
      makes. */
  predicate Unrolls(step: Stepper, run: Suspender, p: Program, inputs: seq<int>, output: Option<int>, fuel: nat) {
    run(p, inputs, output, fuel) ==
      if fuel == 0 then Err(OutOfFuel)
      else match step(p, inputs)
        case Err(e) => Err(e)
        case Ok(Continue(q, rest)) => run(q, rest, output, fuel - 1)
        case Ok(Emit(q, rest, v)) => Ok(Paused(q, Running(rest, Some(v))))
        case Ok(Stop) => Ok(Paused(p, Halted(output)))
  }

  /** Any loop that takes one pass of the suspension loop over `step` at
      every argument is `Suspend` over `step`. */
  lemma {:induction false} SuspendUnique(step: Stepper, run: Suspender, p: Program, inputs: seq<int>, output: Option<int>, fuel: nat)
    requires forall q, i, o, f :: Unrolls(step, run, q, i, o, f)
    ensures run(p, inputs, output, fuel) == Suspend(step, p, inputs, output, fuel)
    decreases fuel
  {
    assert Unrolls(step, run, p, inputs, output, fuel);
    if fuel > 0 {
      match step(p, inputs)
      case Err(_) =>
      case Ok(Continue(q, rest)) =>
        SuspendUnique(step, run, q, rest, output, fuel - 1);
      case Ok(Emit(_, _, _)) =>
      case Ok(Stop) =>
    }
  }

  /** `RunToSuspension` takes one pass of the suspension loop over `Step`. */
  lemma RunToSuspensionUnrolls(p: Program, inputs: seq<int>, output: Option<int>, fuel: nat)
    ensures Unrolls(Step, RunToSuspension, p, inputs, output, fuel)
  {
  }

  /** `RunToSuspension` is `Suspend` instantiated with `Step`. */
  lemma RunToSuspensionIsSuspend(p: Program, inputs: seq<int>, output: Option<int>, fuel: nat)
    ensures RunToSuspension(p, inputs, output, fuel) == Suspend(Step, p, inputs, output, fuel)
  {
    forall q, i, o, f
      ensures Unrolls(Step, RunToSuspension, q, i, o, f)
    {
      RunToSuspensionUnrolls(q, i, o, f);
    }
    SuspendUnique(Step, RunToSuspension, p, inputs, output, fuel);
  }

  /** A loop that resumes a paused program until it halts. */
  type Driver = (Paused, nat) -> Result<Finished, Error>

  /** `drive` takes one pass of the resume loop over `step` at these
      arguments, for a program with memory: a halted program is finished,
      and a running one is run to its next suspension and resumed from
      there with one less unit of fuel. */
  predicate ResumeUnrolls(step: Stepper, drive: Driver, s: Paused, fuel: nat) {
    MemSize(s.program) > 0 ==>
      drive(s, fuel) ==
        match s.suspended
        case Halted(output) => Ok(Finished(s.program, output))
        case Running(inputs, output) =>
          if fuel == 0 then Err(OutOfFuel)
          else match Suspend(step, s.program, inputs, output, fuel)
            case Err(e) => Err(e)
            case Ok(next) => drive(next, fuel - 1)
  }

  /** Running to the next suspension over `step` keeps the memory size. */
  predicate SuspendKeepsSize(step: Stepper, p: Program, inputs: seq<int>, output: Option<int>, fuel: nat) {
    var r := Suspend(step, p, inputs, output, fuel);
    r.Ok? ==> MemSize(r.value.program) == MemSize(p)
  }

  /** Any loop that takes one pass of the resume loop over `step` at every
      paused program with memory is `Resume` over `step` there, provided
      suspensions keep the memory size. */
  lemma {:induction false} ResumeUnique(step: Stepper, drive: Driver, s: Paused, fuel: nat)
    requires forall t, f :: ResumeUnrolls(step, drive, t, f)
    requires forall q, i, o, f :: SuspendKeepsSize(step, q, i, o, f)
    requires MemSize(s.program) > 0
    ensures drive(s, fuel) == Resume(step, s, fuel)
    decreases fuel
  {
    assert ResumeUnrolls(step, drive, s, fuel);
    if s.suspended.Running? && fuel > 0 {
      var inputs, output := s.suspended.inputs, s.suspended.output;
      assert SuspendKeepsSize(step, s.program, inputs, output, fuel);
      match Suspend(step, s.program, inputs, output, fuel)
      case Err(_) =>
      case Ok(next) =>
        ResumeUnique(step, drive, next, fuel - 1);
    }
  }

  /** `Drive` takes one pass of the resume loop over `Step`. */
  lemma DriveUnrolls(s: Paused, fuel: nat)
    ensures ResumeUnrolls(Step, Drive, s, fuel)
  {
    if MemSize(s.program) > 0 && s.suspended.Running? && fuel > 0 {
      RunToSuspensionIsSuspend(s.program, s.suspended.inputs, s.suspended.output, fuel);
    }
  }

  /** `Drive` is `Resume` instantiated with `Step`, for a program with memory. */
  lemma DriveIsResume(s: Paused, fuel: nat)
    requires MemSize(s.program) > 0
    ensures Drive(s, fuel) == Resume(Step, s, fuel)
  {
    forall t, f
      ensures ResumeUnrolls(Step, Drive, t, f)
    {
      DriveUnrolls(t, f);
    }
    forall q, i, o, f
      ensures SuspendKeepsSize(Step, q, i, o, f)
    {
      RunToSuspensionIsSuspend(q, i, o, f);
    }
    ResumeUnique(Step, Drive, s, fuel);
  }

  /** The last of `outputs`, or `before` when there is none. */
  function LastOr(outputs: seq<int>, before: Option<int>): Option<int> {
    if |outputs| == 0 then before else Some(outputs[|outputs| - 1])
  }

  /** Running to the next suspension performs a prefix of the reference run:
      it halts where the reference halts when there is no output, and
      otherwise suspends on the first output in a state from which the
      reference run emits the remaining outputs with less fuel. */
  lemma {:induction false} SuspensionIsPrefix(step: Stepper, p: Program, inputs: seq<int>, output: Option<int>, f: nat, g: nat)
    returns (rest: nat)
    requires Exec(step, p, inputs, f).Ok? && f <= g
    ensures var tr := Exec(step, p, inputs, f).value;
      var r := Suspend(step, p, inputs, output, g);
      && r.Ok?
      && (|tr.outputs| == 0 ==> r.value == Paused(tr.program, Halted(output)))
      && (|tr.outputs| > 0 ==>
            && r.value.suspended.Running?
            && r.value.suspended.output == Some(tr.outputs[0])
            && rest < f
            && Exec(step, r.value.program, r.value.suspended.inputs, rest) == Ok(Trace(tr.program, tr.outputs[1..])))
    decreases f
  {
    var t := step(p, inputs).value;
    match t
    case Continue(q, more) =>
      rest := SuspensionIsPrefix(step, q, more, output, f - 1, g - 1);
    case Emit(q, more, v) =>
      var tail := Exec(step, q, more, f - 1).value;
      assert ([v] + tail.outputs)[1..] == tail.outputs;
      rest := f - 1;
    case Stop =>
      rest := 0;
  }

  /** Resuming until halted emits the reference run's outputs one by one and
      ends in its final state, reporting its last output. */
  lemma {:induction false} ResumeFollowsReference(step: Stepper, p: Program, inputs: seq<int>, output: Option<int>, f: nat, g: nat)
    requires Exec(step, p, inputs, f).Ok? && f <= g
    ensures var tr := Exec(step, p, inputs, f).value;
      Resume(step, Paused(p, Running(inputs, output)), g) == Ok(Finished(tr.program, LastOr(tr.outputs, output)))
    decreases f
  {
    var tr := Exec(step, p, inputs, f).value;
    var rest := SuspensionIsPrefix(step, p, inputs, output, f, g);
    if |tr.outputs| > 0 {
      var next := Suspend(step, p, inputs, output, g).value;
      ResumeFollowsReference(step, next.program, next.suspended.inputs, Some(tr.outputs[0]), rest, g - 1);
      assert LastOr(tr.outputs[1..], Some(tr.outputs[0])) == LastOr(tr.outputs, output);
    }
  }

  /** `run` agrees with the reference semantics: whenever the reference run
      halts, `run` (a chain of suspensions and resumptions) halts in the same
      state and returns the last output the reference run emitted. */
  lemma RunAgreesWithExec(p: Program, inputs: seq<int>, fuel: nat)
    requires Exec(Step, p, inputs, fuel).Ok?
    ensures var tr := Exec(Step, p, inputs, fuel).value;
      Run(p, inputs, fuel) == Ok(Finished(tr.program, LastOr(tr.outputs, None)))
  {
    var tr := Exec(Step, p, inputs, fuel).value;
    RunToSuspensionIsSuspend(p, inputs, None, fuel);
    var rest := SuspensionIsPrefix(Step, p, inputs, None, fuel, fuel);
    if |tr.outputs| > 0 {
      var first := Suspend(Step, p, inputs, None, fuel).value;
      DriveIsResume(first, fuel);
      ResumeFollowsReference(Step, first.program, first.suspended.inputs, Some(tr.outputs[0]), rest, fuel);
      assert LastOr(tr.outputs[1..], Some(tr.outputs[0])) == LastOr(tr.outputs, None);
    }
  }

  /** The reference run of an instruction that emits `v`: `v` ahead of the
      outputs of the rest of the run, or the rest's error. */
  function Prepend(v: int, r: Result<Trace, Error>): Result<Trace, Error> {
    match r
    case Ok(tail) => Ok(Trace(tail.program, [v] + tail.outputs))
    case Err(e) => Err(e)
  }

  /** How many instructions `Suspend` executes, counting the one that emits,
      stops or fails. */
  function SuspendCost(step: Stepper, p: Program, inputs: seq<int>, fuel: nat): nat
    decreases fuel
  {
    if fuel == 0 then 0
    else match step(p, inputs)
      case Ok(Continue(q, rest)) => 1 + SuspendCost(step, q, rest, fuel - 1)
      case _ => 1
  }

  /** A suspension that did not run out of fuel is the start of a reference
      run: with `h` more fuel than the suspension used, the reference fails
      with the same error, halts in the same state without output, or emits
      the suspension's output and then runs on from the suspended state. */
  lemma {:induction false} SuspendThenExec(step: Stepper, p: Program, inputs: seq<int>, output: Option<int>, g: nat, h: nat)
    requires Suspend(step, p, inputs, output, g) != Err(OutOfFuel)
    ensures SuspendCost(step, p, inputs, g) <= g
    ensures var k := SuspendCost(step, p, inputs, g);
      var r := Suspend(step, p, inputs, output, g);
      && (r.Err? ==> Exec(step, p, inputs, k + h) == Err(r.error))
      && (r.Ok? && r.value.suspended.Halted? ==>
            && r.value.suspended.output == output
            && Exec(step, p, inputs, k + h) == Ok(Trace(r.value.program, [])))
      && (r.Ok? && r.value.suspended.Running? ==>
            && r.value.suspended.output.Some?
            && Exec(step, p, inputs, k + h)
               == Prepend(r.value.suspended.output.value, Exec(step, r.value.program, r.value.suspended.inputs, h)))
    decreases g
  {
    match step(p, inputs)
    case Ok(Continue(q, rest)) =>
      SuspendThenExec(step, q, rest, output, g - 1, h);
    case _ =>
  }

  /** A resumption that did not run out of fuel retraces a reference run: it
      fails with the reference's error, or ends in the reference's final
      state with its last output. */
  lemma {:induction false} ResumeThenExec(step: Stepper, s: Paused, g: nat) returns (k: nat)
    requires s.suspended.Running? && Resume(step, s, g) != Err(OutOfFuel)
    ensures var r := Resume(step, s, g);
      var tr := Exec(step, s.program, s.suspended.inputs, k);
      && (r.Err? ==> tr == Err(r.error))
      && (r.Ok? ==> tr.Ok? && r.value == Finished(tr.value.program, LastOr(tr.value.outputs, s.suspended.output)))
    decreases g
  {
    var first := Suspend(step, s.program, s.suspended.inputs, s.suspended.output, g);
    var c := SuspendCost(step, s.program, s.suspended.inputs, g);
    if first.Err? || first.value.suspended.Halted? {
      SuspendThenExec(step, s.program, s.suspended.inputs, s.suspended.output, g, 0);
      k := c;
    } else {
      var next := first.value;
      var h := ResumeThenExec(step, next, g - 1);
      SuspendThenExec(step, s.program, s.suspended.inputs, s.suspended.output, g, h);
      k := c + h;
      var tail := Exec(step, next.program, next.suspended.inputs, h);
      if tail.Ok? {
        assert LastOr([next.suspended.output.value] + tail.value.outputs, s.suspended.output)
            == LastOr(tail.value.outputs, next.suspended.output);
      }
    }
  }

  /** `run` over an arbitrary transition function: the first suspension,
      then resumption until halted. */
  function Launch(step: Stepper, p: Program, inputs: seq<int>, fuel: nat): Result<Finished, Error> {
    var first :- Suspend(step, p, inputs, None, fuel);
    Resume(step, first, fuel)
  }

  /** On a non-empty memory `Run` is `Launch` over `Step`. */
  lemma RunIsLaunch(p: Program, inputs: seq<int>, fuel: nat)
    requires MemSize(p) > 0
    ensures Run(p, inputs, fuel) == Launch(Step, p, inputs, fuel)
  {
    RunToSuspensionIsSuspend(p, inputs, None, fuel);
    var first := RunToSuspension(p, inputs, None, fuel);
    if first.Ok? && first.value.suspended.Running? {
      DriveIsResume(first.value, fuel);
    }
  }

  /** Whatever `Launch` returns, short of running out of fuel, is what the
      reference run returns with enough fuel. */
  lemma LaunchThenExec(step: Stepper, p: Program, inputs: seq<int>, fuel: nat) returns (f: nat)
    requires Launch(step, p, inputs, fuel) != Err(OutOfFuel)
    ensures var r := Launch(step, p, inputs, fuel);
      var tr := Exec(step, p, inputs, f);
      && (r.Err? ==> tr == Err(r.error))
      && (r.Ok? ==> tr.Ok? && r.value == Finished(tr.value.program, LastOr(tr.value.outputs, None)))
  {
    var first := Suspend(step, p, inputs, None, fuel);
    var c := SuspendCost(step, p, inputs, fuel);
    if first.Err? || first.value.suspended.Halted? {
      SuspendThenExec(step, p, inputs, None, fuel, 0);
      f := c;
    } else {
      var next := first.value;
      var h := ResumeThenExec(step, next, fuel);
      SuspendThenExec(step, p, inputs, None, fuel, h);
      f := c + h;
      var tail := Exec(step, next.program, next.suspended.inputs, h);
      if tail.Ok? {
        assert LastOr([next.suspended.output.value] + tail.value.outputs, None)
            == LastOr(tail.value.outputs, next.suspended.output);
      }
    }
  }

  /** The converse of `RunAgreesWithExec`: whatever `run` returns, short of
      running out of fuel, is what a reference run with enough fuel returns —
      the same error, or the same final state and last output. The empty
      memory is excluded because `run` rejects it before the loop starts. */
  lemma RunThenExec(p: Program, inputs: seq<int>, fuel: nat) returns (f: nat)
    requires MemSize(p) > 0 && Run(p, inputs, fuel) != Err(OutOfFuel)
    ensures var r := Run(p, inputs, fuel);
      var tr := Exec(Step, p, inputs, f);
      && (r.Err? ==> tr == Err(r.error))
      && (r.Ok? ==> tr.Ok? && r.value == Finished(tr.value.program, LastOr(tr.value.outputs, None)))
  {
    RunIsLaunch(p, inputs, fuel);
    f := LaunchThenExec(Step, p, inputs, fuel);
  }

  /** A reference run that fails (other than for fuel) fails the same way
      before its first output, or emits first and fails later from the state
      the suspension stops in. */
  lemma {:induction false} SuspensionErrorIsPrefix(step: Stepper, p: Program, inputs: seq<int>, output: Option<int>, f: nat, g: nat)
    returns (rest: nat)
    requires Exec(step, p, inputs, f).Err? && Exec(step, p, inputs, f).error != OutOfFuel && f <= g
    ensures var e := Exec(step, p, inputs, f).error;
      var r := Suspend(step, p, inputs, output, g);
      || (r.Err? && r.error == e)
      || (&& r.Ok? && r.value.suspended.Running? && rest < f
          && Exec(step, r.value.program, r.value.suspended.inputs, rest) == Err(e))
    decreases f
  {
    rest := 0;
    match step(p, inputs)
    case Err(_) =>
    case Ok(Continue(q, more)) =>
      rest := SuspensionErrorIsPrefix(step, q, more, output, f - 1, g - 1);
    case Ok(Emit(q, more, v)) =>
      rest := f - 1;
    case Ok(Stop) =>
      assert false;
  }

  /** Resuming a program whose reference run fails (other than for fuel)
      ends in that failure. */
  lemma {:induction false} ResumeErrorFollowsReference(step: Stepper, p: Program, inputs: seq<int>, output: Option<int>, f: nat, g: nat)
    requires Exec(step, p, inputs, f).Err? && Exec(step, p, inputs, f).error != OutOfFuel && f <= g
    ensures Resume(step, Paused(p, Running(inputs, output)), g) == Err(Exec(step, p, inputs, f).error)
    decreases f
  {
    var rest := SuspensionErrorIsPrefix(step, p, inputs, output, f, g);
    var r := Suspend(step, p, inputs, output, g);
    if r.Ok? {
      var next := r.value;
      ResumeErrorFollowsReference(step, next.program, next.suspended.inputs, next.suspended.output, rest, g - 1);
    }
  }

  /** Errors agree too: when the reference run fails other than for fuel,
      `run` with the same fuel fails with the same error. */
  lemma RunErrorAgreesWithExec(p: Program, inputs: seq<int>, fuel: nat)
    requires MemSize(p) > 0
    requires Exec(Step, p, inputs, fuel).Err? && Exec(Step, p, inputs, fuel).error != OutOfFuel
    ensures Run(p, inputs, fuel) == Err(Exec(Step, p, inputs, fuel).error)
  {
    RunToSuspensionIsSuspend(p, inputs, None, fuel);
    var rest := SuspensionErrorIsPrefix(Step, p, inputs, None, fuel, fuel);
    var first := Suspend(Step, p, inputs, None, fuel);
    if first.Ok? {
      var next := first.value;
      DriveIsResume(next, fuel);
      ResumeErrorFollowsReference(Step, next.program, next.suspended.inputs, next.suspended.output, rest, fuel);
    }
  }

  /** A program that `run` left halted halts again at once when re-run, with
      no output and no change of state. */
  lemma RerunAfterHalt(p: Program, inputs: seq<int>, fuel: nat, more: seq<int>, fuel2: nat)
    requires Run(p, inputs, fuel).Ok? && fuel2 > 0
    ensures var done := Run(p, inputs, fuel).value.program;
      RunSuspended(done, more, fuel2) == Ok(Paused(done, Halted(None)))
  {
  }

  /** `mimick` makes a fresh run independent of what the program ran before:
      two programs that mimic the same source behave identically. */
  lemma MimickForgetsHistory(a: Program, b: Program, source: Program, inputs: seq<int>, fuel: nat)
    ensures Run(Mimick(a, source), inputs, fuel) == Run(Mimick(b, source), inputs, fuel)
    ensures Run(Mimick(a, source), inputs, fuel) == Run(Program(source.memory, 0, 0), inputs, fuel)
  {
  }

  // ===========================================================================
  // Input order

  /** Input instructions take `inputs[0]` and then `swap_remove(0)`: with
      three pending inputs the third is consumed second, not the second. */
  lemma SwapRemoveReordersInputs()
    ensures SwapRemove([10, 20, 30], 0) == [30, 20]
    ensures SwapRemove([10, 20], 0) == [20]
  {
  }

  // ===========================================================================
  // Single instructions

  /** An arithmetic instruction whose operands resolve writes its result to
      the third operand's address and moves on by four, keeping the inputs. */
  lemma StepArith(p: Program, inputs: seq<int>, m1: ParamMode, m2: ParamMode, m3: ParamMode, f: Arith)
    requires InBounds(p, p.ip)
    requires Decode(p.memory[p.ip]) == Ok(if f == Sum then Add(m1, m2, m3) else Mult(m1, m2, m3))
    requires ThreeOperandsResolve(p, m1, m2, m3)
    ensures var v := ApplyArith(f, ReadOperand(p, 1, m1).value, ReadOperand(p, 2, m2).value);
      Step(p, inputs) == Ok(Continue(Program(p.memory[EffectiveAddress(p, 3, m3) := v], p.ip + 4, p.relBase), inputs))
  {
    var op := if f == Sum then Add(m1, m2, m3) else Mult(m1, m2, m3);
    assert Step(p, inputs) == Execute(p, inputs, op);
    var e := PerformOp(p, m1, m2, m3, f);
    assert e.Ok?;
    assert Execute(p, inputs, op) == Ok(Continue(UpdateIp(e.value.program, e.value.control), inputs));
  }

  /** A comparison writes 1 or 0 to the third operand's address according to
      whether it holds, and moves on by four. */
  lemma StepCompare(p: Program, inputs: seq<int>, m1: ParamMode, m2: ParamMode, m3: ParamMode, c: Comparison)
    requires InBounds(p, p.ip)
    requires Decode(p.memory[p.ip]) == Ok(if c == LessThan then IfLT(m1, m2, m3) else IfEQ(m1, m2, m3))
    requires ThreeOperandsResolve(p, m1, m2, m3)
    ensures var holds := ApplyComparison(c, ReadOperand(p, 1, m1).value, ReadOperand(p, 2, m2).value);
      Step(p, inputs) == Ok(Continue(Program(p.memory[EffectiveAddress(p, 3, m3) := if holds then 1 else 0], p.ip + 4, p.relBase), inputs))
  {
    var op := if c == LessThan then IfLT(m1, m2, m3) else IfEQ(m1, m2, m3);
    var e := PerformConditional(p, m1, m2, m3, c);
    var holds := ApplyComparison(c, ReadOperand(p, 1, m1).value, ReadOperand(p, 2, m2).value);
    assert UpdateIp(e.value.program, e.value.control)
      == Program(p.memory[EffectiveAddress(p, 3, m3) := if holds then 1 else 0], p.ip + 4, p.relBase);
    assert Execute(p, inputs, op) == Ok(Continue(UpdateIp(e.value.program, e.value.control), inputs));
    assert Step(p, inputs) == Execute(p, inputs, op);
  }

  /** A conditional jump whose condition fails skips its two operands. */
  lemma StepJumpNotTaken(p: Program, inputs: seq<int>, m1: ParamMode, m2: ParamMode, truth: bool)
    requires InBounds(p, p.ip)
    requires Decode(p.memory[p.ip]) == Ok(if truth then JumpIfTrue(m1, m2) else JumpIfFalse(m1, m2))
    requires Guarded(p, 2) && ReadOperand(p, 1, m1).Ok? && (ReadOperand(p, 1, m1).value != 0) != truth
    ensures Step(p, inputs) == Ok(Continue(p.(ip := p.ip + 3), inputs))
  {
    assert Step(p, inputs) == Execute(p, inputs, if truth then JumpIfTrue(m1, m2) else JumpIfFalse(m1, m2));
    assert PerformJump(p, m1, m2, truth) == Ok(Increase(3));
  }

  /** A conditional jump whose condition holds moves the IP to its second
      operand, wherever that points. */
  lemma StepJumpTaken(p: Program, inputs: seq<int>, m1: ParamMode, m2: ParamMode, truth: bool)
    requires InBounds(p, p.ip)
    requires Decode(p.memory[p.ip]) == Ok(if truth then JumpIfTrue(m1, m2) else JumpIfFalse(m1, m2))
    requires Guarded(p, 2) && ReadOperand(p, 1, m1).Ok? && (ReadOperand(p, 1, m1).value != 0) == truth
    requires ReadOperand(p, 2, m2).Ok?
    ensures Step(p, inputs) == Ok(Continue(p.(ip := ReadOperand(p, 2, m2).value), inputs))
  {
    assert Step(p, inputs) == Execute(p, inputs, if truth then JumpIfTrue(m1, m2) else JumpIfFalse(m1, m2));
    assert PerformJump(p, m1, m2, truth) == Ok(Manual(ReadOperand(p, 2, m2).value));
  }

  /** An input instruction stores the first pending input and leaves the
      rest reordered by `swap_remove`. */
  lemma StepGetInput(p: Program, inputs: seq<int>, m1: ParamMode)
    requires InBounds(p, p.ip) && Decode(p.memory[p.ip]) == Ok(GetInput(m1))
    requires Guarded(p, 1) && |inputs| > 0 && m1 != Immediate && InBounds(p, EffectiveAddress(p, 1, m1))
    ensures Step(p, inputs) == Ok(Continue(Program(p.memory[EffectiveAddress(p, 1, m1) := inputs[0]], p.ip + 2, p.relBase), SwapRemove(inputs, 0)))
  {
    assert Step(p, inputs) == Execute(p, inputs, GetInput(m1));
    assert PerformGetInput(p, inputs, m1).Ok?;
  }

  /** An input instruction with no pending input fails. */
  lemma StepNoInput(p: Program, m1: ParamMode)
    requires InBounds(p, p.ip) && Decode(p.memory[p.ip]) == Ok(GetInput(m1)) && Guarded(p, 1)
    ensures Step(p, []) == Err(NoInput)
  {
    assert Step(p, []) == Execute(p, [], GetInput(m1));
  }

  /** Adjusting the relative base shifts where relative operands point. */
  lemma StepAdjustRelBase(p: Program, inputs: seq<int>, m1: ParamMode)
    requires InBounds(p, p.ip) && Decode(p.memory[p.ip]) == Ok(AdjustRelBase(m1))
    requires Guarded(p, 1) && ReadOperand(p, 1, m1).Ok?
    ensures Step(p, inputs) == Ok(Continue(Program(p.memory, p.ip + 2, p.relBase + ReadOperand(p, 1, m1).value), inputs))
  {
    assert Step(p, inputs) == Execute(p, inputs, AdjustRelBase(m1));
    assert PerformAdjustRelBase(p, m1).Ok?;
  }

  // ===========================================================================
  // Examples

  /** `1` is a position-mode add. */
  lemma AddWord()
    ensures Decode(1) == Ok(Add(Position, Position, Position))
  {
    DecodeOf(1, [Position, Position, Position]);
  }

  /** `2` is a position-mode multiply. */
  lemma MultWord()
    ensures Decode(2) == Ok(Mult(Position, Position, Position))
  {
    DecodeOf(2, [Position, Position, Position]);
  }

  /** `99` is the halt. */
  lemma HaltWord()
    ensures Decode(99) == Ok(Halt)
  {
    DecodeOf(99, []);
  }

  /** `109` is a relative-base adjustment by an immediate operand. */
  lemma AdjustWord()
    ensures Decode(109) == Ok(AdjustRelBase(Immediate))
  {
    DecodeOf(109, [Immediate]);
  }

  /** `204` is an output of a relative operand. */
  lemma RelativeOutputWord()
    ensures Decode(204) == Ok(Output(Relative))
  {
    DecodeOf(204, [Relative]);
  }

  /** `1002` is a multiply whose second operand is immediate. */
  lemma ImmediateMultWord()
    ensures Decode(1002) == Ok(Mult(Position, Immediate, Position))
  {
    DecodeOf(1002, [Position, Immediate, Position]);
  }

  /** The words of the examples decode to the opcodes and modes their
      digits spell. */
  lemma ExampleOpcodes()
    ensures Decode(1) == Ok(Add(Position, Position, Position))
    ensures Decode(2) == Ok(Mult(Position, Position, Position))
    ensures Decode(99) == Ok(Halt)
    ensures Decode(109) == Ok(AdjustRelBase(Immediate))
    ensures Decode(204) == Ok(Output(Relative))
    ensures Decode(1002) == Ok(Mult(Position, Immediate, Position))
  {
    AddWord();
    MultWord();
    HaltWord();
    AdjustWord();
    RelativeOutputWord();
    ImmediateMultWord();
  }

  /** `1,9,10,3,2,3,11,0,99,30,40,50`: the add writes 30 + 40 = 70 at
      address 3, and the multiply then writes 70 * 50 = 3500 at address 0. */
  lemma ExampleAddMultiply()
    ensures PerformOp(Program([1, 9, 10, 3, 2, 3, 11, 0, 99, 30, 40, 50], 0, 0), Position, Position, Position, Sum)
         == Ok(Effect(Program([1, 9, 10, 70, 2, 3, 11, 0, 99, 30, 40, 50], 0, 0), Increase(4)))
    ensures PerformOp(Program([1, 9, 10, 70, 2, 3, 11, 0, 99, 30, 40, 50], 4, 0), Position, Position, Position, Product)
         == Ok(Effect(Program([3500, 9, 10, 70, 2, 3, 11, 0, 99, 30, 40, 50], 4, 0), Increase(4)))
  {
    var p := Program([1, 9, 10, 3, 2, 3, 11, 0, 99, 30, 40, 50], 0, 0);
    assert p.memory[3 := 70] == [1, 9, 10, 70, 2, 3, 11, 0, 99, 30, 40, 50];
    var q := Program([1, 9, 10, 70, 2, 3, 11, 0, 99, 30, 40, 50], 4, 0);
    assert q.memory[0 := 3500] == [3500, 9, 10, 70, 2, 3, 11, 0, 99, 30, 40, 50];
  }

  /** `1002,4,3,4,33`: an immediate-mode operand is its own value, so the
      multiply writes 33 * 3 = 99 at address 4. */
  lemma ExampleImmediateMode()
    ensures PerformOp(Program([1002, 4, 3, 4, 33], 0, 0), Position, Immediate, Position, Product)
         == Ok(Effect(Program([1002, 4, 3, 4, 99], 0, 0), Increase(4)))
  {
    assert [1002, 4, 3, 4, 33][4 := 99] == [1002, 4, 3, 4, 99];
  }

  /** `109,3,204,1,99`: the first instruction moves the relative base from
      0 to 3, so the relative operand 1 of the second designates address 4,
      whose word 99 is output. */
  lemma ExampleRelativeBase()
    ensures PerformAdjustRelBase(Program([109, 3, 204, 1, 99], 0, 0), Immediate)
         == Ok(Effect(Program([109, 3, 204, 1, 99], 0, 3), Increase(2)))
    ensures PerformOutput(Program([109, 3, 204, 1, 99], 2, 3), Relative) == Ok(Emission(99, Increase(2)))
  {
  }
}
