/**
 * Day 17 of 2024 (the three-bit computer): the `OpComputer` record, its
 * program validator and its two accessors for the instruction at the
 * instruction pointer.
 */
module Day17 {
  import opened Common

  /** `OpComputer`: the program, registers A, B and C, and the instruction pointer. */
  datatype OpComputer = OpComputer(program: seq<int>, a: int, b: int, c: int, instrPtr: int)

  /** The range every program entry must lie in: a three-bit number. */
  predicate ThreeBit(n: int)
  {
    0 <= n < 8
  }

  /** Every entry of `program` is a three-bit number. */
  predicate AllThreeBit(program: seq<int>)
  {
    forall i :: 0 <= i < |program| ==> ThreeBit(program[i])
  }

  /**
   * `check_program_values`, run on each item in turn: the first entry
   * outside `0 <= n < 8` raises ValueError, otherwise the list is kept as it is.
   */
  function CheckProgramValues(program: seq<int>): (r: Result<seq<int>>)
    ensures r.Ok? <==> AllThreeBit(program)
    ensures r.Ok? ==> r.value == program
    ensures r.Err? ==> r.error == ValueError
  {
    if program == [] then Ok([])
    else if !ThreeBit(program[0]) then Err(ValueError)
    else
      match CheckProgramValues(program[1..])
      case Ok(rest) => Ok([program[0]] + rest)
      case Err(e) => Err(e)
  }

  /**
   * Building an `OpComputer`: the program is validated and the fields are
   * stored unchanged. `instr_ptr` defaults to 0, its declaration's evident
   * intent.
   */
  function NewComputer(program: seq<int>, a: int, b: int, c: int, instrPtr: int := 0): (r: Result<OpComputer>)
    ensures r.Ok? <==> AllThreeBit(program)
    ensures r.Ok? ==> r.value == OpComputer(program, a, b, c, instrPtr)
    ensures r.Err? ==> r.error == ValueError
  {
    match CheckProgramValues(program)
    case Ok(p) => Ok(OpComputer(p, a, b, c, instrPtr))
    case Err(e) => Err(e)
  }

  /** A computer the validator let through. */
  predicate Valid(comp: OpComputer)
  {
    AllThreeBit(comp.program)
  }

  /**
   * `opcode`: the entry at the instruction pointer when it is before the
   * last entry, None otherwise. A negative pointer passes that test and
   * indexes from the end, raising IndexError below `-len(program)`.
   */
  function Opcode(comp: OpComputer): (r: Result<Option<int>>)
    ensures r == Ok(None) <==> comp.instrPtr >= |comp.program| - 1
    ensures r.Err? <==> comp.instrPtr < -|comp.program| && comp.instrPtr < |comp.program| - 1
    ensures r.Err? ==> r.error == IndexError
    ensures r.Ok? && r.value.Some? && 0 <= comp.instrPtr ==> r.value.value == comp.program[comp.instrPtr]
  {
    if comp.instrPtr < |comp.program| - 1 then
      match PyIndex(comp.program, comp.instrPtr)
      case Ok(v) => Ok(Some(v))
      case Err(e) => Err(e)
    else Ok(None)
  }

  /** `operand`: the entry after the instruction pointer, under the same test as `opcode`. */
  function Operand(comp: OpComputer): (r: Result<Option<int>>)
    ensures r == Ok(None) <==> comp.instrPtr >= |comp.program| - 1
    ensures r.Err? <==> comp.instrPtr + 1 < -|comp.program|
    ensures r.Err? ==> r.error == IndexError
    ensures r.Ok? && r.value.Some? && 0 <= comp.instrPtr ==> r.value.value == comp.program[comp.instrPtr + 1]
  {
    if comp.instrPtr < |comp.program| - 1 then
      match PyIndex(comp.program, comp.instrPtr + 1)
      case Ok(v) => Ok(Some(v))
      case Err(e) => Err(e)
    else Ok(None)
  }

  /**
   * On a validated computer whose pointer is not negative, the opcode and
   * the operand are both present or both absent, and each is a three-bit
   * number.
   */
  lemma OpcodeOperandInRange(comp: OpComputer)
    requires Valid(comp) && 0 <= comp.instrPtr
    ensures Opcode(comp).Ok? && Operand(comp).Ok?
    ensures Opcode(comp).value.Some? <==> Operand(comp).value.Some?
    ensures Opcode(comp).value.Some? ==> ThreeBit(Opcode(comp).value.value) && ThreeBit(Operand(comp).value.value)
  {
  }

  /** Any pointer the validator's computer can hold gives three-bit opcodes and operands, when they exist. */
  lemma AccessorsThreeBit(comp: OpComputer)
    requires Valid(comp)
    ensures Opcode(comp).Ok? && Opcode(comp).value.Some? ==> ThreeBit(Opcode(comp).value.value)
    ensures Operand(comp).Ok? && Operand(comp).value.Some? ==> ThreeBit(Operand(comp).value.value)
  {
    if Opcode(comp).Ok? && Opcode(comp).value.Some? {
      var v := Opcode(comp).value.value;
      assert v in comp.program;
      var i :| 0 <= i < |comp.program| && comp.program[i] == v;
    }
    if Operand(comp).Ok? && Operand(comp).value.Some? {
      var v := Operand(comp).value.value;
      assert v in comp.program;
      var i :| 0 <= i < |comp.program| && comp.program[i] == v;
    }
  }

  /** A valid program and its registers are stored unchanged. */
  lemma ValidProgramStored()
    ensures NewComputer([0, 1, 2, 7], 5, 10, 15) == Ok(OpComputer([0, 1, 2, 7], 5, 10, 15, 0))
  {
    assert AllThreeBit([0, 1, 2, 7]);
  }

  /** An entry of 8 is refused. */
  lemma EightRejected()
    ensures NewComputer([0, 8, 3], 1, 2, 3) == Err(ValueError)
  {
    assert !ThreeBit([0, 8, 3][1]);
  }

  /** A negative entry is refused. */
  lemma NegativeRejected()
    ensures NewComputer([-1, 2, 3], 1, 2, 3) == Err(ValueError)
  {
    assert !ThreeBit([-1, 2, 3][0]);
  }

  /** The empty program is accepted, and then there is no opcode and no operand. */
  lemma EmptyProgramAccepted()
    ensures NewComputer([], 0, 0, 0) == Ok(OpComputer([], 0, 0, 0, 0))
    ensures Opcode(OpComputer([], 0, 0, 0, 0)) == Ok(None) && Operand(OpComputer([], 0, 0, 0, 0)) == Ok(None)
  {
  }
}
