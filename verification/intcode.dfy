/** The Intcode interpreter (intcode/src/lib.rs): a word-addressed memory, an
    instruction pointer and a relative base, driven one instruction at a time
    by a decode/resolve/execute loop that suspends after every output.

    `Word` is Rust's `i64`; here it is `int`, and overflow is not modelled.
    Addresses and the instruction pointer are `int` too: the source casts a
    word to `usize` with `as`, which turns a negative word into a huge address
    that no memory reaches, so a negative address here fails every bounds
    check exactly as its cast counterpart does. */
module Intcode {
  import opened Wrappers
  import RustInt
  import Text

  // ===========================================================================
  // Errors

  /** The source reports every failure as a `String`; these tags name them. */
  datatype Error =
    | ParseError            // `from_str`: a token is not an i64
    | ReadOutOfBounds       // `read`
    | WriteOutOfBounds      // `write`
    | MissingOperand        // `guard_memory_ip`: operands run past the end
    | OperandOutOfBounds    // `read_operand`: position/relative address out of range
    | ImmediateAddress      // `read_addr_operand` in immediate mode
    | NoInput               // input instruction with no pending input
    | InputOutOfBounds      // input instruction storing out of range
    | UnsupportedParamMode  // `ParamMode::try_from`
    | UnknownOpCode         // `extract_op_code`
    | NoMoreData            // running a program with empty memory
    | IpOutOfBounds         // fetching at an IP outside memory (a panic in the source)
    | OutOfFuel             // the fuel bound of this model ran out (no source counterpart)

  // ===========================================================================
  // Decoding

  datatype ParamMode = Position | Immediate | Relative

  datatype OpCode =
    | Add(m1: ParamMode, m2: ParamMode, m3: ParamMode)
    | Mult(m1: ParamMode, m2: ParamMode, m3: ParamMode)
    | GetInput(m1: ParamMode)
    | Output(m1: ParamMode)
    | JumpIfTrue(m1: ParamMode, m2: ParamMode)
    | JumpIfFalse(m1: ParamMode, m2: ParamMode)
    | IfLT(m1: ParamMode, m2: ParamMode, m3: ParamMode)
    | IfEQ(m1: ParamMode, m2: ParamMode, m3: ParamMode)
    | AdjustRelBase(m1: ParamMode)
    | Halt

  /** The two-digit opcodes the interpreter knows: 1 to 9, and 99. */
  predicate KnownCode(code: int) {
    (1 <= code <= 9) || code == 99
  }

  /** The number of operands each opcode takes. */
  function ArityOfCode(code: int): nat {
    if code == 1 || code == 2 || code == 7 || code == 8 then 3
    else if code == 5 || code == 6 then 2
    else if code == 3 || code == 4 || code == 9 then 1
    else 0
  }

  /** The numeric opcode of a decoded instruction. */
  function Code(op: OpCode): int {
    match op
    case Add(_, _, _) => 1
    case Mult(_, _, _) => 2
    case GetInput(_) => 3
    case Output(_) => 4
    case JumpIfTrue(_, _) => 5
    case JumpIfFalse(_, _) => 6
    case IfLT(_, _, _) => 7
    case IfEQ(_, _, _) => 8
    case AdjustRelBase(_) => 9
    case Halt => 99
  }

  /** The parameter modes of a decoded instruction, first operand first. */
  function Modes(op: OpCode): seq<ParamMode> {
    match op
    case Add(m1, m2, m3) => [m1, m2, m3]
    case Mult(m1, m2, m3) => [m1, m2, m3]
    case GetInput(m1) => [m1]
    case Output(m1) => [m1]
    case JumpIfTrue(m1, m2) => [m1, m2]
    case JumpIfFalse(m1, m2) => [m1, m2]
    case IfLT(m1, m2, m3) => [m1, m2, m3]
    case IfEQ(m1, m2, m3) => [m1, m2, m3]
    case AdjustRelBase(m1) => [m1]
    case Halt => []
  }

  function Arity(op: OpCode): nat {
    |Modes(op)|
  }

  /** The digit that encodes a parameter mode. */
  function ModeDigit(m: ParamMode): nat {
    match m
    case Position => 0
    case Immediate => 1
    case Relative => 2
  }

  /** `ParamMode::try_from`: digits 0, 1 and 2 name the three modes. */
  function ModeOf(digit: int): (r: Result<ParamMode, Error>)
    ensures r.Ok? <==> 0 <= digit <= 2
    ensures r.Ok? ==> ModeDigit(r.value) == digit
    ensures r.Err? ==> r.error == UnsupportedParamMode
  {
    if digit == 0 then Ok(Position)
    else if digit == 1 then Ok(Immediate)
    else if digit == 2 then Ok(Relative)
    else Err(UnsupportedParamMode)
  }

  /** `(w / 100) % 10`, `(w / 1000) % 10`, `(w / 10000) % 10` with Rust's
      truncating operators: the mode digit of operand `k` (counting from 0). */
  function ModeField(w: int, k: nat): int
    requires k < 3
  {
    if k == 0 then RustInt.Rem(RustInt.Div(w, 100), 10)
    else if k == 1 then RustInt.Rem(RustInt.Div(w, 1000), 10)
    else RustInt.Rem(RustInt.Div(w, 10000), 10)
  }

  /** Every mode digit the opcode `code` consults is 0, 1 or 2. */
  predicate ModesValid(w: int, code: int) {
    forall k :: 0 <= k < ArityOfCode(code) && k < 3 ==> 0 <= ModeField(w, k) <= 2
  }

  /** The modes of the first `n` operands, lowest digit first; the first
      digit outside {0, 1, 2} is an error. */
  function DecodeModes(w: int, n: nat): (r: Result<seq<ParamMode>, Error>)
    requires n <= 3
    ensures r.Ok? ==> |r.value| == n
    ensures r.Err? ==> r.error == UnsupportedParamMode
  {
    if n == 0 then Ok([])
    else
      var rest :- DecodeModes(w, n - 1);
      var m :- ModeOf(ModeField(w, n - 1));
      Ok(rest + [m])
  }

  /** `DecodeModes` succeeds exactly when each of the first `n` mode digits is
      0, 1 or 2, and then reads each of them. */
  lemma {:induction false} DecodeModesSpec(w: int, n: nat)
    requires n <= 3
    ensures DecodeModes(w, n).Ok? <==> forall k :: 0 <= k < n ==> 0 <= ModeField(w, k) <= 2
    ensures DecodeModes(w, n).Ok? ==> forall k :: 0 <= k < n ==> ModeDigit(DecodeModes(w, n).value[k]) == ModeField(w, k)
  {
    if n > 0 {
      DecodeModesSpec(w, n - 1);
    }
  }

  /** The instruction with opcode `code` and operand modes `ms`. */
  function Assemble(code: int, ms: seq<ParamMode>): (op: OpCode)
    requires KnownCode(code) && |ms| == ArityOfCode(code)
    ensures Code(op) == code && Modes(op) == ms
  {
    if code == 1 then Add(ms[0], ms[1], ms[2])
    else if code == 2 then Mult(ms[0], ms[1], ms[2])
    else if code == 3 then GetInput(ms[0])
    else if code == 4 then Output(ms[0])
    else if code == 5 then JumpIfTrue(ms[0], ms[1])
    else if code == 6 then JumpIfFalse(ms[0], ms[1])
    else if code == 7 then IfLT(ms[0], ms[1], ms[2])
    else if code == 8 then IfEQ(ms[0], ms[1], ms[2])
    else if code == 9 then AdjustRelBase(ms[0])
    else Halt
  }

  /** `extract_op_code`: the opcode is `w % 100`, and each operand's mode is
      the next decimal digit up, checked from the first operand on. Digits
      above those the opcode uses are ignored. (The source spells out one
      match arm per opcode; `DecodeModes` and `Assemble` factor them.) */
  function Decode(w: int): (r: Result<OpCode, Error>)
    ensures r.Err? ==> r.error == UnknownOpCode || r.error == UnsupportedParamMode
  {
    var code := RustInt.Rem(w, 100);
    if !KnownCode(code) then Err(UnknownOpCode)
    else
      var ms :- DecodeModes(w, ArityOfCode(code));
      Ok(Assemble(code, ms))
  }

  /** What `Decode` accepts and what it reads: a known opcode whose consulted
      mode digits are all valid decodes to the instruction with that opcode
      and those modes; an unknown opcode and an invalid mode digit are the two
      ways to fail. */
  lemma DecodeSpec(w: int)
    ensures Decode(w).Ok? <==> KnownCode(RustInt.Rem(w, 100)) && ModesValid(w, RustInt.Rem(w, 100))
    ensures !KnownCode(RustInt.Rem(w, 100)) ==> Decode(w) == Err(UnknownOpCode)
    ensures Decode(w).Err? && KnownCode(RustInt.Rem(w, 100)) ==> Decode(w).error == UnsupportedParamMode
    ensures Decode(w).Ok? ==> Code(Decode(w).value) == RustInt.Rem(w, 100)
    ensures Decode(w).Ok? ==> Arity(Decode(w).value) == ArityOfCode(Code(Decode(w).value))
    ensures Decode(w).Ok? ==>
      forall k :: 0 <= k < Arity(Decode(w).value) ==> ModeDigit(Modes(Decode(w).value)[k]) == ModeField(w, k)
  {
    var code := RustInt.Rem(w, 100);
    if KnownCode(code) {
      DecodeModesSpec(w, ArityOfCode(code));
    }
  }

  /** The canonical instruction word of a decoded instruction. */
  function Encode(op: OpCode): int {
    var ms := Modes(op);
    Code(op)
    + (if |ms| > 0 then ModeDigit(ms[0]) * 100 else 0)
    + (if |ms| > 1 then ModeDigit(ms[1]) * 1000 else 0)
    + (if |ms| > 2 then ModeDigit(ms[2]) * 10000 else 0)
  }

  // ===========================================================================
  // Program state, memory access

  const DEFAULT_MEMORY_SIZE: nat := 10000

  /** `Program`: memory, instruction pointer and relative base. */
  datatype Program = Program(memory: seq<int>, ip: int, relBase: int)

  function MemSize(p: Program): nat {
    |p.memory|
  }

  predicate InBounds(p: Program, a: int) {
    0 <= a < |p.memory|
  }

  /** `Program::new`: no memory yet (the capacity only reserves space). */
  function New(capacity: nat): (p: Program)
    ensures MemSize(p) == 0 && p.ip == 0 && p.relBase == 0
  {
    Program([], 0, 0)
  }

  /** `Vec::resize`: truncate to `n` cells or pad with `fill` up to `n`. */
  function Resize(s: seq<int>, n: nat, fill: int): (r: seq<int>)
    ensures |r| == n
    ensures forall i :: 0 <= i < n && i < |s| ==> r[i] == s[i]
    ensures forall i :: |s| <= i < n ==> r[i] == fill
  {
    if |s| >= n then s[..n] else s + seq(n - |s|, _ => fill)
  }

  /** Parse every token as an i64, failing on the first that does not parse. */
  function ParseWords(tokens: seq<string>): (r: Result<seq<int>, Error>)
    ensures r.Ok? <==> forall i :: 0 <= i < |tokens| ==> Text.ParseInt(tokens[i], Text.I64).Some?
    ensures r.Ok? ==> |r.value| == |tokens|
    ensures r.Ok? ==> forall i :: 0 <= i < |tokens| ==> Text.ParseInt(tokens[i], Text.I64) == Some(r.value[i])
    ensures r.Err? ==> r.error == ParseError
  {
    if |tokens| == 0 then Ok([])
    else
      match Text.ParseInt(tokens[0], Text.I64)
      case None => Err(ParseError)
      case Some(w) =>
        var rest :- ParseWords(tokens[1..]);
        Ok([w] + rest)
  }

  /** `Program::from_str`: comma-separated i64 words, loaded at address 0 and
      resized to exactly `DEFAULT_MEMORY_SIZE` cells (zero-padded, or
      truncated if the source is longer). */
  function FromStr(input: string): (r: Result<Program, Error>)
    ensures var tokens := Text.Split(input, ',');
      && (r.Ok? <==> forall i :: 0 <= i < |tokens| ==> Text.ParseInt(tokens[i], Text.I64).Some?)
      && (r.Ok? ==> MemSize(r.value) == DEFAULT_MEMORY_SIZE && r.value.ip == 0 && r.value.relBase == 0)
      && (r.Ok? ==> forall i :: 0 <= i < |tokens| && i < DEFAULT_MEMORY_SIZE ==>
                      Text.ParseInt(tokens[i], Text.I64) == Some(r.value.memory[i]))
      && (r.Ok? ==> forall i :: |tokens| <= i < DEFAULT_MEMORY_SIZE ==> r.value.memory[i] == 0)
    ensures r.Err? ==> r.error == ParseError
  {
    match ParseWords(Text.Split(input, ','))
    case Err(e) => Err(e)
    case Ok(words) => Ok(Program(Resize(words, DEFAULT_MEMORY_SIZE, 0), 0, 0))
  }

  /** `mimick`: take a copy of `other`'s memory and restart at IP 0 with
      relative base 0. Nothing of `self` survives. */
  function Mimick(self: Program, other: Program): (r: Program)
    ensures r.memory == other.memory && MemSize(r) == MemSize(other)
    ensures r.ip == 0 && r.relBase == 0
  {
    Program(other.memory, 0, 0)
  }

  /** `is_halted`: the IP no longer points into memory. */
  predicate IsHalted(p: Program) {
    !InBounds(p, p.ip)
  }

  /** `read`: the word at `i`, or an error exactly when `i` is outside memory. */
  function Read(p: Program, i: int): (r: Result<int, Error>)
    ensures r.Ok? <==> InBounds(p, i)
    ensures r.Ok? ==> r.value == p.memory[i]
    ensures r.Err? ==> r.error == ReadOutOfBounds
  {
    if !InBounds(p, i) then Err(ReadOutOfBounds) else Ok(p.memory[i])
  }

  /** `write`: store `w` at `i`, or an error exactly when `i` is outside
      memory. Only cell `i` changes; the length, IP and relative base do not. */
  function Write(p: Program, i: int, w: int): (r: Result<Program, Error>)
    ensures r.Ok? <==> InBounds(p, i)
    ensures r.Ok? ==> MemSize(r.value) == MemSize(p) && r.value.memory[i] == w
    ensures r.Ok? ==> forall j :: 0 <= j < MemSize(p) && j != i ==> r.value.memory[j] == p.memory[j]
    ensures r.Ok? ==> r.value.ip == p.ip && r.value.relBase == p.relBase
    ensures r.Err? ==> r.error == WriteOutOfBounds
  {
    if !InBounds(p, i) then Err(WriteOutOfBounds) else Ok(p.(memory := p.memory[i := w]))
  }

  // ===========================================================================
  // Operand resolution

  /** The operands at `ip + 1 ..= ip + offset` lie inside memory. */
  predicate Guarded(p: Program, offset: nat) {
    0 <= p.ip && p.ip + offset < |p.memory|
  }

  /** `guard_memory_ip`: reject an instruction whose operands run past the end. */
  function GuardMemoryIp(p: Program, offset: nat): (r: Result<(), Error>)
    ensures r.Ok? <==> Guarded(p, offset)
    ensures r.Err? ==> r.error == MissingOperand
  {
    if !Guarded(p, offset) then Err(MissingOperand) else Ok(())
  }

  /** The address an operand designates in position or relative mode. */
  function EffectiveAddress(p: Program, offset: nat, mode: ParamMode): int
    requires Guarded(p, offset)
  {
    if mode == Relative then p.relBase + p.memory[p.ip + offset] else p.memory[p.ip + offset]
  }

  /** `read_operand`: an immediate operand is its own value; a position or
      relative operand is the word at its effective address, which must lie
      inside memory. */
  function ReadOperand(p: Program, offset: nat, mode: ParamMode): (r: Result<int, Error>)
    requires Guarded(p, offset)
    ensures mode == Immediate ==> r == Ok(p.memory[p.ip + offset])
    ensures mode != Immediate ==> (r.Ok? <==> InBounds(p, EffectiveAddress(p, offset, mode)))
    ensures mode != Immediate && r.Ok? ==> r.value == p.memory[EffectiveAddress(p, offset, mode)]
    ensures r.Err? ==> r.error == OperandOutOfBounds
  {
    var raw := p.memory[p.ip + offset];
    match mode
    case Position => if InBounds(p, raw) then Ok(p.memory[raw]) else Err(OperandOutOfBounds)
    case Immediate => Ok(raw)
    case Relative =>
      if InBounds(p, p.relBase + raw) then Ok(p.memory[p.relBase + raw]) else Err(OperandOutOfBounds)
  }

  /** `read_addr_operand`: the effective address of a write target; an
      immediate-mode target is rejected. The address is not bounds-checked
      here. */
  function ReadAddrOperand(p: Program, offset: nat, mode: ParamMode): (r: Result<int, Error>)
    requires Guarded(p, offset)
    ensures r.Ok? <==> mode != Immediate
    ensures r.Ok? ==> r.value == EffectiveAddress(p, offset, mode)
    ensures r.Err? ==> r.error == ImmediateAddress
  {
    match mode
    case Position => Ok(p.memory[p.ip + offset])
    case Immediate => Err(ImmediateAddress)
    case Relative => Ok(p.relBase + p.memory[p.ip + offset])
  }

  // ===========================================================================
  // Instructions

  /** `IPControl`: advance the IP by an offset, or jump to an absolute address. */
  datatype IPControl = Increase(offset: int) | Manual(target: int)

  /** The state an instruction leaves behind, and how the IP moves next. */
  datatype Effect = Effect(program: Program, control: IPControl)

  /** An output instruction's value, and how the IP moves next. */
  datatype Emission = Emission(value: int, control: IPControl)

  datatype Arith = Sum | Product

  datatype Comparison = LessThan | EqualTo

  function ApplyArith(f: Arith, a: int, b: int): int {
    match f
    case Sum => a + b
    case Product => a * b
  }

  function ApplyComparison(c: Comparison, a: int, b: int): bool {
    match c
    case LessThan => a < b
    case EqualTo => a == b
  }

  /** Both source operands and the write target of a three-operand
      instruction resolve, and the target lies inside memory. */
  predicate ThreeOperandsResolve(p: Program, m1: ParamMode, m2: ParamMode, m3: ParamMode) {
    && Guarded(p, 3)
    && ReadOperand(p, 1, m1).Ok?
    && ReadOperand(p, 2, m2).Ok?
    && m3 != Immediate
    && InBounds(p, EffectiveAddress(p, 3, m3))
  }

  /** `perform_op`: Add and Mult write `f(op1, op2)` to the third operand's
      address and advance the IP by 4. */
  function PerformOp(p: Program, m1: ParamMode, m2: ParamMode, m3: ParamMode, f: Arith): (r: Result<Effect, Error>)
    ensures r.Ok? <==> ThreeOperandsResolve(p, m1, m2, m3)
    ensures r.Ok? ==>
      var t := EffectiveAddress(p, 3, m3);
      var v := ApplyArith(f, ReadOperand(p, 1, m1).value, ReadOperand(p, 2, m2).value);
      && r.value.control == Increase(4)
      && r.value.program == p.(memory := p.memory[t := v])
    ensures !Guarded(p, 3) ==> r == Err(MissingOperand)
  {
    var _ :- GuardMemoryIp(p, 3);
    var op1 :- ReadOperand(p, 1, m1);
    var op2 :- ReadOperand(p, 2, m2);
    var outputIdx :- ReadAddrOperand(p, 3, m3);
    var q :- Write(p, outputIdx, ApplyArith(f, op1, op2));
    Ok(Effect(q, Increase(4)))
  }

  /** `perform_conditional`: LessThan and Equals write 1 when the comparison
      holds and 0 otherwise, and advance the IP by 4. */
  function PerformConditional(p: Program, m1: ParamMode, m2: ParamMode, m3: ParamMode, c: Comparison): (r: Result<Effect, Error>)
    ensures r.Ok? <==> ThreeOperandsResolve(p, m1, m2, m3)
    ensures r.Ok? ==>
      var t := EffectiveAddress(p, 3, m3);
      var holds := ApplyComparison(c, ReadOperand(p, 1, m1).value, ReadOperand(p, 2, m2).value);
      && r.value.control == Increase(4)
      && r.value.program == p.(memory := p.memory[t := if holds then 1 else 0])
    ensures !Guarded(p, 3) ==> r == Err(MissingOperand)
  {
    var _ :- GuardMemoryIp(p, 3);
    var op1 :- ReadOperand(p, 1, m1);
    var op2 :- ReadOperand(p, 2, m2);
    var outputIdx :- ReadAddrOperand(p, 3, m3);
    var q :- Write(p, outputIdx, if ApplyComparison(c, op1, op2) then 1 else 0);
    Ok(Effect(q, Increase(4)))
  }

  /** `perform_get_input`: store the first pending input at the operand's
      address and advance the IP by 2. An empty input list is an error, and
      so is an immediate or out-of-range target. */
  function PerformGetInput(p: Program, inputs: seq<int>, mode: ParamMode): (r: Result<Effect, Error>)
    ensures r.Ok? <==> Guarded(p, 1) && |inputs| > 0 && mode != Immediate && InBounds(p, EffectiveAddress(p, 1, mode))
    ensures r.Ok? ==>
      && r.value.control == Increase(2)
      && r.value.program == p.(memory := p.memory[EffectiveAddress(p, 1, mode) := inputs[0]])
    ensures Guarded(p, 1) && |inputs| == 0 ==> r == Err(NoInput)
  {
    var _ :- GuardMemoryIp(p, 1);
    if |inputs| == 0 then Err(NoInput)
    else
      var addr :- ReadAddrOperand(p, 1, mode);
      if !InBounds(p, addr) then Err(InputOutOfBounds)
      else
        Ok(Effect(Write(p, addr, inputs[0]).value, Increase(2)))
  }

  /** `perform_output`: the operand's value is the output; the IP advances by 2. */
  function PerformOutput(p: Program, mode: ParamMode): (r: Result<Emission, Error>)
    ensures r.Ok? <==> Guarded(p, 1) && ReadOperand(p, 1, mode).Ok?
    ensures r.Ok? ==> r.value == Emission(ReadOperand(p, 1, mode).value, Increase(2))
  {
    var _ :- GuardMemoryIp(p, 1);
    var value :- ReadOperand(p, 1, mode);
    Ok(Emission(value, Increase(2)))
  }

  /** `perform_jump`: when `(op1 != 0) == truth` the IP is set to the second
      operand, which is not checked against memory until the next fetch;
      otherwise the IP advances by 3 and the second operand is never read. */
  function PerformJump(p: Program, m1: ParamMode, m2: ParamMode, truth: bool): (r: Result<IPControl, Error>)
    ensures r.Ok? ==> Guarded(p, 2) && ReadOperand(p, 1, m1).Ok?
    ensures r.Ok? && (ReadOperand(p, 1, m1).value != 0) == truth ==>
      ReadOperand(p, 2, m2).Ok? && r.value == Manual(ReadOperand(p, 2, m2).value)
    ensures r.Ok? && (ReadOperand(p, 1, m1).value != 0) != truth ==> r.value == Increase(3)
    ensures Guarded(p, 2) && ReadOperand(p, 1, m1).Ok? && (ReadOperand(p, 1, m1).value != 0) != truth ==> r.Ok?
  {
    var _ :- GuardMemoryIp(p, 2);
    var op1 :- ReadOperand(p, 1, m1);
    if (op1 != 0) == truth then
      var target :- ReadOperand(p, 2, m2);
      Ok(Manual(target))
    else
      Ok(Increase(3))
  }

  /** `perform_adjust_rel_base`: add the operand to the relative base and
      advance the IP by 2; memory is untouched. */
  function PerformAdjustRelBase(p: Program, mode: ParamMode): (r: Result<Effect, Error>)
    ensures r.Ok? <==> Guarded(p, 1) && ReadOperand(p, 1, mode).Ok?
    ensures r.Ok? ==> r.value.program == p.(relBase := p.relBase + ReadOperand(p, 1, mode).value)
    ensures r.Ok? ==> r.value.control == Increase(2)
  {
    var _ :- GuardMemoryIp(p, 1);
    var offset :- ReadOperand(p, 1, mode);
    Ok(Effect(p.(relBase := p.relBase + offset), Increase(2)))
  }

  /** `update_ip`. */
  function UpdateIp(p: Program, c: IPControl): (q: Program)
    ensures q.memory == p.memory && q.relBase == p.relBase
    ensures c.Increase? ==> q.ip == p.ip + c.offset
    ensures c.Manual? ==> q.ip == c.target
  {
    match c
    case Increase(offset) => p.(ip := p.ip + offset)
    case Manual(target) => p.(ip := target)
  }

  /** `Vec::swap_remove(i)`: remove element `i` by moving the last element
      into its place; every other element stays where it was. */
  function SwapRemove(s: seq<int>, i: nat): (r: seq<int>)
    requires i < |s|
    ensures |r| == |s| - 1
    ensures i < |r| ==> r[i] == s[|s| - 1]
    ensures forall j :: 0 <= j < |r| && j != i ==> r[j] == s[j]
  {
    if i == |s| - 1 then s[..i] else s[..i] + [s[|s| - 1]] + s[i + 1..|s| - 1]
  }

  /** `swap_remove` removes exactly one copy of element `i`. */
  lemma SwapRemoveMultiset(s: seq<int>, i: nat)
    requires i < |s|
    ensures multiset(SwapRemove(s, i)) == multiset(s) - multiset{s[i]}
  {
    var last := |s| - 1;
    if i == last {
      assert s == s[..last] + [s[last]];
    } else {
      assert s == s[..i] + [s[i]] + s[i + 1..last] + [s[last]];
    }
  }

  // ===========================================================================
  // One step of `rerun_suspended`'s loop

  /** What one fetched instruction does to the run: keep going, emit an
      output and suspend, or halt (leaving the IP on the halt instruction). */
  datatype Transition =
    | Continue(program: Program, inputs: seq<int>)
    | Emit(program: Program, inputs: seq<int>, value: int)
    | Stop

  /** Execute the decoded instruction `op` sitting at the IP. Only the halt
      instruction stops the run, and no instruction changes the size of
      memory. */
  function Execute(p: Program, inputs: seq<int>, op: OpCode): (r: Result<Transition, Error>)
    ensures r.Ok? && !r.value.Stop? ==> MemSize(r.value.program) == MemSize(p)
    ensures r.Ok? && r.value.Stop? <==> op == Halt
  {
    match op
    case Add(m1, m2, m3) =>
      var e :- PerformOp(p, m1, m2, m3, Sum);
      Ok(Continue(UpdateIp(e.program, e.control), inputs))
    case Mult(m1, m2, m3) =>
      var e :- PerformOp(p, m1, m2, m3, Product);
      Ok(Continue(UpdateIp(e.program, e.control), inputs))
    case GetInput(m1) =>
      var e :- PerformGetInput(p, inputs, m1);
      Ok(Continue(UpdateIp(e.program, e.control), SwapRemove(inputs, 0)))
    case Output(m1) =>
      var o :- PerformOutput(p, m1);
      Ok(Emit(UpdateIp(p, o.control), inputs, o.value))
    case JumpIfTrue(m1, m2) =>
      var c :- PerformJump(p, m1, m2, true);
      Ok(Continue(UpdateIp(p, c), inputs))
    case JumpIfFalse(m1, m2) =>
      var c :- PerformJump(p, m1, m2, false);
      Ok(Continue(UpdateIp(p, c), inputs))
    case IfLT(m1, m2, m3) =>
      var e :- PerformConditional(p, m1, m2, m3, LessThan);
      Ok(Continue(UpdateIp(e.program, e.control), inputs))
    case IfEQ(m1, m2, m3) =>
      var e :- PerformConditional(p, m1, m2, m3, EqualTo);
      Ok(Continue(UpdateIp(e.program, e.control), inputs))
    case AdjustRelBase(m1) =>
      var e :- PerformAdjustRelBase(p, m1);
      Ok(Continue(UpdateIp(e.program, e.control), inputs))
    case Halt =>
      Ok(Stop)
  }

  /** Fetch, decode and execute the instruction at the IP: fetching outside
      memory fails, and the run stops exactly on a halt instruction. */
  function Step(p: Program, inputs: seq<int>): (r: Result<Transition, Error>)
    ensures !InBounds(p, p.ip) <==> r == Err(IpOutOfBounds)
    ensures r.Ok? && !r.value.Stop? ==> MemSize(r.value.program) == MemSize(p)
    ensures r.Ok? && r.value.Stop? <==> InBounds(p, p.ip) && Decode(p.memory[p.ip]) == Ok(Halt)
  {
    if !InBounds(p, p.ip) then Err(IpOutOfBounds)
    else
      var op :- Decode(p.memory[p.ip]);
      Execute(p, inputs, op)
  }

  /** An output instruction emits its operand's value and moves on by two,
      leaving memory and the inputs alone; an input instruction consumes
      inputs by `swap_remove(0)`; an instruction whose operands run past the
      end of memory fails before doing anything. */
  lemma StepSpec(p: Program, inputs: seq<int>)
    ensures var r := Step(p, inputs);
      && (r.Ok? && r.value.Emit? ==>
            && Decode(p.memory[p.ip]).Ok? && Decode(p.memory[p.ip]).value.Output?
            && r.value.program == p.(ip := p.ip + 2) && r.value.inputs == inputs
            && Guarded(p, 1) && ReadOperand(p, 1, Decode(p.memory[p.ip]).value.m1) == Ok(r.value.value))
      && (r.Ok? && r.value.Continue? && r.value.inputs != inputs ==>
            |inputs| > 0 && r.value.inputs == SwapRemove(inputs, 0))
      && ((&& InBounds(p, p.ip) && Decode(p.memory[p.ip]).Ok? && Decode(p.memory[p.ip]).value != Halt
           && !Guarded(p, Arity(Decode(p.memory[p.ip]).value))) ==> r == Err(MissingOperand))
  {
    if InBounds(p, p.ip) && Decode(p.memory[p.ip]).Ok? {
      assert Step(p, inputs) == Execute(p, inputs, Decode(p.memory[p.ip]).value);
    }
  }

  // ===========================================================================
  // The suspend/resume protocol

  /** `Suspended`: a run paused after an output (with the inputs it has not
      consumed yet), or a run that reached the halt instruction. */
  datatype Suspended =
    | Running(inputs: seq<int>, output: Option<int>)
    | Halted(output: Option<int>)
  {
    /** `Suspended::output`: the last output, in either state. */
    function Output(): Option<int> {
      output
    }
  }

  /** The IP rests on a halt instruction: the state a halted run leaves. */
  predicate AtHalt(p: Program) {
    InBounds(p, p.ip) && Decode(p.memory[p.ip]) == Ok(Halt)
  }

  /** The program state together with the suspension it is paused in. */
  datatype Paused = Paused(program: Program, suspended: Suspended)

  /** The program state and last output of a run that halted. */
  datatype Finished = Finished(program: Program, output: Option<int>)

  /** The loop of `rerun_suspended`, given `fuel` instructions at most: run
      until an output (suspend, IP already past the output instruction) or
      the halt instruction (`output` is handed back unchanged). */
  function RunToSuspension(p: Program, inputs: seq<int>, output: Option<int>, fuel: nat): (r: Result<Paused, Error>)
    ensures r.Ok? ==> MemSize(r.value.program) == MemSize(p)
    ensures r.Ok? && r.value.suspended.Running? ==> r.value.suspended.output.Some?
    ensures r.Ok? && r.value.suspended.Halted? ==>
      r.value.suspended.output == output && AtHalt(r.value.program)
    decreases fuel
  {
    if fuel == 0 then Err(OutOfFuel)
    else
      var t :- Step(p, inputs);
      match t
      case Continue(q, rest) => RunToSuspension(q, rest, output, fuel - 1)
      case Emit(q, rest, v) => Ok(Paused(q, Running(rest, Some(v))))
      case Stop => Ok(Paused(p, Halted(output)))
  }

  /** `rerun_suspended`: an empty memory is an error; otherwise run to the
      next suspension. */
  function RerunSuspended(p: Program, inputs: seq<int>, output: Option<int>, fuel: nat): (r: Result<Paused, Error>)
    ensures MemSize(p) == 0 ==> r == Err(NoMoreData)
    ensures r.Ok? ==> MemSize(r.value.program) == MemSize(p)
    ensures r.Ok? && r.value.suspended.Running? ==> r.value.suspended.output.Some?
    ensures r.Ok? && r.value.suspended.Halted? ==> r.value.suspended.output == output && AtHalt(r.value.program)
  {
    if |p.memory| == 0 then Err(NoMoreData) else RunToSuspension(p, inputs, output, fuel)
  }

  /** `run_suspended`: start with the given inputs and no output yet. */
  function RunSuspended(p: Program, inputs: seq<int>, fuel: nat): (r: Result<Paused, Error>)
    ensures MemSize(p) == 0 ==> r == Err(NoMoreData)
    ensures r.Ok? && r.value.suspended.Halted? ==> r.value.suspended.output.None? && AtHalt(r.value.program)
  {
    RerunSuspended(p, inputs, None, fuel)
  }

  /** `rerun`: resume a running suspension with the inputs it carried; a
      halted one is returned as it is, and the program is left alone. */
  function Rerun(p: Program, s: Suspended, fuel: nat): (r: Result<Paused, Error>)
    ensures s.Halted? ==> r == Ok(Paused(p, s))
    ensures s.Running? && MemSize(p) == 0 ==> r == Err(NoMoreData)
    ensures s.Running? && r.Ok? && r.value.suspended.Halted? ==> r.value.suspended.output == s.output
  {
    match s
    case Running(inputs, output) => RerunSuspended(p, inputs, output, fuel)
    case Halted(_) => Ok(Paused(p, s))
  }

  /** The loop of `run`: resume until halted, at most `fuel` times. */
  function Drive(s: Paused, fuel: nat): (r: Result<Finished, Error>)
    ensures r.Ok? ==> MemSize(r.value.program) == MemSize(s.program)
    ensures s.suspended.Halted? ==> r == Ok(Finished(s.program, s.suspended.output))
    ensures s.suspended.Running? && r.Ok? ==> AtHalt(r.value.program)
    decreases fuel
  {
    match s.suspended
    case Halted(output) => Ok(Finished(s.program, output))
    case Running(inputs, output) =>
      if fuel == 0 then Err(OutOfFuel)
      else
        var next :- RerunSuspended(s.program, inputs, output, fuel);
        Drive(next, fuel - 1)
  }

  /** `run`: all inputs up front, run to the halt instruction, and return the
      last output (if any). */
  function Run(p: Program, inputs: seq<int>, fuel: nat): (r: Result<Finished, Error>)
    ensures MemSize(p) == 0 ==> r == Err(NoMoreData)
    ensures r.Ok? ==> MemSize(r.value.program) == MemSize(p) && AtHalt(r.value.program)
  {
    var first :- RunSuspended(p, inputs, fuel);
    Drive(first, fuel)
  }
}
