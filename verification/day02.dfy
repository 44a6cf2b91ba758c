/** The first Intcode interpreter (day02/src/main.rs): unsigned words,
    position-mode operands only, and just add, multiply and halt. Words are
    `nat`; `u32` overflow is not modelled. */
module Day02 {
  import opened Wrappers
  import Intcode
  import IntcodeRun

  /** The source's error strings, as tags. */
  datatype Error =
    | MissingData       // operands run past the end of the program
    | Read1OutOfBounds  // the first operand points outside the program
    | Read2OutOfBounds  // the second operand points outside the program
    | WriteOutOfBounds  // the target points outside the program
    | NoMoreData        // running an empty program
    | UnknownOperator   // an opcode other than 1, 2 and 99
    | IpOutOfBounds     // fetching past the end (a panic in the source)

  /** The two operators, 1 and 2. */
  datatype Operator = Plus | Times

  function Apply(f: Operator, a: nat, b: nat): nat {
    match f
    case Plus => a + b
    case Times => a * b
  }

  /** `perform_op`: read the words the two operands point to, and store the
      operator's result where the third points. The checks are made in this
      order: the operands exist, the first pointer, the second, the target. */
  function PerformOp(program: seq<nat>, ip: nat, f: Operator): (r: Result<seq<nat>, Error>)
    ensures ip + 3 >= |program| ==> r == Err(MissingData)
    ensures r.Ok? <==> (&& ip + 3 < |program| && program[ip + 1] < |program|
                        && program[ip + 2] < |program| && program[ip + 3] < |program|)
    ensures r.Ok? ==>
      && |r.value| == |program|
      && r.value[program[ip + 3]] == Apply(f, program[program[ip + 1]], program[program[ip + 2]])
      && forall j :: 0 <= j < |program| && j != program[ip + 3] ==> r.value[j] == program[j]
    ensures ip + 3 < |program| && program[ip + 1] >= |program| ==> r == Err(Read1OutOfBounds)
    ensures ip + 3 < |program| && program[ip + 1] < |program| && program[ip + 2] >= |program| ==>
      r == Err(Read2OutOfBounds)
  {
    if ip + 3 >= |program| then Err(MissingData)
    else if program[ip + 1] >= |program| then Err(Read1OutOfBounds)
    else if program[ip + 2] >= |program| then Err(Read2OutOfBounds)
    else
      var target := program[ip + 3];
      if target >= |program| then Err(WriteOutOfBounds)
      else Ok(program[target := Apply(f, program[program[ip + 1]], program[program[ip + 2]])])
  }

  /** The loop of `run_program` from instruction pointer `ip`: 1 and 2 run
      `perform_op` and move on by four, 99 stops, and anything else is an
      error. The IP only grows while the length stays put, so the loop ends:
      at the latest when the IP runs off the end, where the source's index
      panics. */
  function Run(program: seq<nat>, ip: nat): (r: Result<seq<nat>, Error>)
    ensures r.Ok? ==> |r.value| == |program|
    decreases |program| - ip
  {
    if ip >= |program| then Err(IpOutOfBounds)
    else if program[ip] == 1 || program[ip] == 2 then
      var next :- PerformOp(program, ip, if program[ip] == 1 then Plus else Times);
      Run(next, ip + 4)
    else if program[ip] == 99 then Ok(program)
    else Err(UnknownOperator)
  }

  /** In the final memory, `h` is an instruction boundary at or after `ip`
      holding the halt opcode. */
  predicate Halts(memory: seq<nat>, ip: nat, h: nat) {
    ip <= h < |memory| && (h - ip) % 4 == 0 && memory[h] == 99
  }

  /** A run that succeeds stopped on a halt opcode that it reached by steps
      of four from where it started, and the halt opcode is still there. */
  lemma {:induction false} RunEndsOnHalt(program: seq<nat>, ip: nat) returns (h: nat)
    requires Run(program, ip).Ok?
    ensures Halts(Run(program, ip).value, ip, h)
    decreases |program| - ip
  {
    if program[ip] == 99 {
      h := ip;
    } else {
      var next := PerformOp(program, ip, if program[ip] == 1 then Plus else Times).value;
      h := RunEndsOnHalt(next, ip + 4);
    }
  }

  /** `run_program`: an empty program is an error; otherwise run from 0. */
  function RunProgram(program: seq<nat>): (r: Result<seq<nat>, Error>)
    ensures |program| == 0 ==> r == Err(NoMoreData)
    ensures r.Ok? ==> |r.value| == |program|
  {
    if |program| == 0 then Err(NoMoreData) else Run(program, 0)
  }

  /** An opcode other than 1, 2 and 99 at the IP stops the run with an error,
      and the halt opcode stops it with the memory unchanged. */
  lemma RunAtOpcode(program: seq<nat>, ip: nat)
    requires ip < |program|
    ensures program[ip] == 99 ==> Run(program, ip) == Ok(program)
    ensures program[ip] !in {1, 2, 99} ==> Run(program, ip) == Err(UnknownOperator)
  {
  }

  /** A step of this interpreter is a step of the full Intcode interpreter
      with every operand in position mode: both succeed together and leave
      the same memory. */
  lemma PerformOpIsIntcodeOp(program: seq<nat>, ip: nat, f: Operator)
    ensures var p := Intcode.Program(program, ip, 0);
      var g := if f == Plus then Intcode.Sum else Intcode.Product;
      var q := Intcode.PerformOp(p, Intcode.Position, Intcode.Position, Intcode.Position, g);
      && (PerformOp(program, ip, f).Ok? <==> q.Ok?)
      && (q.Ok? ==> q.value.program.memory == PerformOp(program, ip, f).value && q.value.control == Intcode.Increase(4))
  {
  }

  /** An add or multiply word is one step of the full interpreter. */
  lemma ArithStepIsIntcodeStep(program: seq<nat>, ip: nat, f: Operator)
    requires ip < |program| && program[ip] == if f == Plus then 1 else 2
    ensures var r := Intcode.Step(Intcode.Program(program, ip, 0), []);
      && (PerformOp(program, ip, f).Ok? <==> r.Ok?)
      && (r.Ok? ==> r == Ok(Intcode.Continue(Intcode.Program(PerformOp(program, ip, f).value, ip + 4, 0), [])))
  {
    var p := Intcode.Program(program, ip, 0);
    var op := if f == Plus then Intcode.Add(Intcode.Position, Intcode.Position, Intcode.Position)
              else Intcode.Mult(Intcode.Position, Intcode.Position, Intcode.Position);
    if f == Plus { IntcodeRun.AddWord(); } else { IntcodeRun.MultWord(); }
    assert Intcode.Step(p, []) == Intcode.Execute(p, [], op);
    PerformOpIsIntcodeOp(program, ip, f);
  }

  /** On the words this interpreter knows, one pass of its loop is one step
      of the full interpreter (relative base 0, no inputs): 99 stops, and 1
      and 2 succeed together with the full step, which then continues four
      words on in the same memory. The two differ on every other word, such
      as 1101, which the full interpreter reads as an immediate-mode add. */
  lemma RunStepIsIntcodeStep(program: seq<nat>, ip: nat)
    requires ip < |program| && program[ip] in {1, 2, 99}
    ensures StepsAsDay02(Intcode.Step, program, ip)
  {
    if program[ip] == 99 {
      IntcodeRun.HaltWord();
    } else {
      ArithStepIsIntcodeStep(program, ip, if program[ip] == 1 then Plus else Times);
    }
  }

  /** What one step of `step` does on the words 1, 2 and 99 when it agrees
      with a pass of this interpreter's loop. */
  ghost predicate StepsAsDay02(step: IntcodeRun.Stepper, program: seq<nat>, ip: nat)
    requires ip < |program|
  {
    var r := step(Intcode.Program(program, ip, 0), []);
    && (program[ip] == 99 ==> r == Ok(Intcode.Stop))
    && (program[ip] in {1, 2} ==>
          var f := if program[ip] == 1 then Plus else Times;
          && (PerformOp(program, ip, f).Ok? <==> r.Ok?)
          && (r.Ok? ==> r == Ok(Intcode.Continue(Intcode.Program(PerformOp(program, ip, f).value, ip + 4, 0), []))))
  }

  /** A successful run is a halting reference run of any transition function
      that agrees with the loop on 1, 2 and 99. */
  lemma {:induction false} RunIsExecOf(step: IntcodeRun.Stepper, program: seq<nat>, ip: nat) returns (fuel: nat)
    requires Run(program, ip).Ok?
    requires forall q: seq<nat>, j: nat :: j < |q| ==> StepsAsDay02(step, q, j)
    ensures var tr := IntcodeRun.Exec(step, Intcode.Program(program, ip, 0), [], fuel);
      tr.Ok? && tr.value.program.memory == Run(program, ip).value && tr.value.outputs == []
    decreases |program| - ip
  {
    assert StepsAsDay02(step, program, ip);
    if program[ip] == 99 {
      fuel := 1;
    } else {
      var next := PerformOp(program, ip, if program[ip] == 1 then Plus else Times).value;
      var rest := RunIsExecOf(step, next, ip + 4);
      fuel := rest + 1;
    }
  }

  /** A successful run of this interpreter is a run of the full interpreter
      from the same IP that halts without output in the same memory. */
  lemma RunIsIntcodeExec(program: seq<nat>, ip: nat) returns (fuel: nat)
    requires Run(program, ip).Ok?
    ensures var tr := IntcodeRun.Exec(Intcode.Step, Intcode.Program(program, ip, 0), [], fuel);
      tr.Ok? && tr.value.program.memory == Run(program, ip).value && tr.value.outputs == []
  {
    forall q: seq<nat>, j: nat | j < |q|
      ensures StepsAsDay02(Intcode.Step, q, j)
    {
      if q[j] in {1, 2, 99} {
        RunStepIsIntcodeStep(q, j);
      }
    }
    fuel := RunIsExecOf(Intcode.Step, program, ip);
  }

  /** `1,9,10,3,2,3,11,0,99,30,40,50` halts with 3500 at address 0. */
  lemma ExampleRun()
    ensures RunProgram([1, 9, 10, 3, 2, 3, 11, 0, 99, 30, 40, 50])
         == Ok([3500, 9, 10, 70, 2, 3, 11, 0, 99, 30, 40, 50])
  {
    var p := [1, 9, 10, 3, 2, 3, 11, 0, 99, 30, 40, 50];
    var q := p[3 := 70];
    assert PerformOp(p, 0, Plus) == Ok(q);
    var r := q[0 := 3500];
    assert PerformOp(q, 4, Times) == Ok(r);
    assert r == [3500, 9, 10, 70, 2, 3, 11, 0, 99, 30, 40, 50];
    assert Run(r, 8) == Ok(r);
    assert Run(q, 4) == Run(r, 8);
    assert Run(p, 0) == Run(q, 4);
  }

  /** `1,1,1,4,99,5,6,0,99` rewrites its own code: the add writes 1 + 1 = 2
      over the 99 at address 4, so the next instruction is a multiply that
      stores 5 * 6 = 30 at address 0, and the run halts at address 8. */
  lemma ExampleSelfModifying()
    ensures RunProgram([1, 1, 1, 4, 99, 5, 6, 0, 99]) == Ok([30, 1, 1, 4, 2, 5, 6, 0, 99])
  {
    var p := [1, 1, 1, 4, 99, 5, 6, 0, 99];
    var q := p[4 := 2];
    assert PerformOp(p, 0, Plus) == Ok(q);
    var r := q[0 := 30];
    assert PerformOp(q, 4, Times) == Ok(r);
    assert r == [30, 1, 1, 4, 2, 5, 6, 0, 99];
    assert Run(r, 8) == Ok(r);
    assert Run(q, 4) == Run(r, 8);
    assert Run(p, 0) == Run(q, 4);
  }
}
