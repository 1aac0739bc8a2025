/** The worked example of Day 25 and the test `test_a`: the two-state
    blueprint, its parse, its trace over six steps and its checksum. */
module TwentyFiveExample {
  import opened Wrappers
  import opened TextIo
  import opened Blueprint
  import opened TuringMachine

  /** The blueprint text of `test_a`, line by line. */
  const ExampleText: string := ExampleHeader + ExampleBlockA + ExampleBlockB

  const ExampleHeader: string :=
    "Begin in state A.\n" +
    "Perform a diagnostic checksum after 6 steps.\n"

  const ExampleBlockA: string :=
    "\n" +
    "In state A:\n" +
    ExampleBranchA0 + ExampleBranchA1

  const ExampleBranchA0: string :=
    "  If the current value is 0:\n" +
    "    - Write the value 1.\n" +
    "    - Move one slot to the right.\n" +
    "    - Continue with state B.\n"

  const ExampleBranchA1: string :=
    "  If the current value is 1:\n" +
    "    - Write the value 0.\n" +
    "    - Move one slot to the left.\n" +
    "    - Continue with state B.\n"

  const ExampleBlockB: string :=
    "\n" +
    "In state B:\n" +
    ExampleBranchB0 + ExampleBranchB1

  const ExampleBranchB0: string :=
    "  If the current value is 0:\n" +
    "    - Write the value 1.\n" +
    "    - Move one slot to the left.\n" +
    "    - Continue with state A.\n"

  const ExampleBranchB1: string :=
    "  If the current value is 1:\n" +
    "    - Write the value 1.\n" +
    "    - Move one slot to the right.\n" +
    "    - Continue with state A.\n"

  const BlockA := BlockTokens("A", BranchTokens("0", "1", "right", "B"), BranchTokens("1", "0", "left", "B"))
  const BlockB := BlockTokens("B", BranchTokens("0", "1", "left", "A"), BranchTokens("1", "1", "right", "A"))

  const StateA := State(Transition(1, false, 'B'), Transition(0, true, 'B'))
  const StateB := State(Transition(1, true, 'A'), Transition(1, false, 'A'))

  const ExampleBlueprint := Blueprint('A', 6, map['A' := StateA, 'B' := StateB])

  lemma BranchTextA0()
    ensures ExampleBranchA0 == BranchText(BlockA.zero)
  {
    assert "  If the current value is 0:\n" == Line(ValueLine, "0");
    assert "    - Write the value 1.\n" == Line(WriteLine, "1");
    assert "    - Move one slot to the right.\n" == Line(MoveLine, "right");
    assert "    - Continue with state B.\n" == Line(ContinueLine, "B");
  }

  lemma BranchTextA1()
    ensures ExampleBranchA1 == BranchText(BlockA.one)
  {
    assert "  If the current value is 1:\n" == Line(ValueLine, "1");
    assert "    - Write the value 0.\n" == Line(WriteLine, "0");
    assert "    - Move one slot to the left.\n" == Line(MoveLine, "left");
    assert "    - Continue with state B.\n" == Line(ContinueLine, "B");
  }

  lemma BranchTextB0()
    ensures ExampleBranchB0 == BranchText(BlockB.zero)
  {
    assert "  If the current value is 0:\n" == Line(ValueLine, "0");
    assert "    - Write the value 1.\n" == Line(WriteLine, "1");
    assert "    - Move one slot to the left.\n" == Line(MoveLine, "left");
    assert "    - Continue with state A.\n" == Line(ContinueLine, "A");
  }

  lemma BranchTextB1()
    ensures ExampleBranchB1 == BranchText(BlockB.one)
  {
    assert "  If the current value is 1:\n" == Line(ValueLine, "1");
    assert "    - Write the value 1.\n" == Line(WriteLine, "1");
    assert "    - Move one slot to the right.\n" == Line(MoveLine, "right");
    assert "    - Continue with state A.\n" == Line(ContinueLine, "A");
  }

  lemma BlockTextA()
    ensures ExampleBlockA == BlockText(BlockA)
  {
    BranchTextA0();
    BranchTextA1();
    assert "\n" + "In state A:\n" == Line(StateLine, BlockA.name);
  }

  lemma BlockTextB()
    ensures ExampleBlockB == BlockText(BlockB)
  {
    BranchTextB0();
    BranchTextB1();
    assert "\n" + "In state B:\n" == Line(StateLine, BlockB.name);
  }

  lemma HeaderText()
    ensures ExampleHeader == Line(BeginLine, "A") + Line(ChecksumLine, "6")
  {
  }

  /** The example text is the header followed by the two blocks, in the grammar's terms. */
  lemma ExampleTextStructure()
    ensures ExampleText == Line(BeginLine, "A") + (Line(ChecksumLine, "6") + (BlockText(BlockA) + BlockText(BlockB)))
  {
    BlockTextA();
    BlockTextB();
    HeaderText();
    var begin, steps := Line(BeginLine, "A"), Line(ChecksumLine, "6");
    Assoc(begin + steps, BlockText(BlockA), BlockText(BlockB));
    Assoc(begin, steps, BlockText(BlockA) + BlockText(BlockB));
  }

  lemma ExampleBlocksParse()
    ensures ParseBlock(BlockText(BlockA) + BlockText(BlockB)) == Ok(Block('A', StateA, BlockText(BlockB)))
    ensures ParseBlock(BlockText(BlockB) + "") == Ok(Block('B', StateB, ""))
  {
    ParseUsizeDigit('0');
    ParseUsizeDigit('1');
    ParseBlockComplete(BlockA, BlockText(BlockB));
    ParseBlockComplete(BlockB, "");
  }

  lemma ExampleLoop()
    ensures BlockLoop(ParseBlock, BlockText(BlockA) + BlockText(BlockB), 2, map[]) == Ok((ExampleBlueprint.states, ""))
  {
    ExampleBlocksParse();
    assert BlockText(BlockB) + "" == BlockText(BlockB);
    var m1 := map['A' := StateA];
    assert BlockLoop(ParseBlock, BlockText(BlockA) + BlockText(BlockB), 2, map[])
        == BlockLoop(ParseBlock, BlockText(BlockB), 1, m1);
    assert BlockLoop(ParseBlock, BlockText(BlockB), 1, m1) == BlockLoop(ParseBlock, "", 0, m1['B' := StateB]);
  }

  lemma ExampleHeaderReads()
    ensures var afterStart := Line(ChecksumLine, "6") + (BlockText(BlockA) + BlockText(BlockB));
      Read(ExampleText, BeginLine, ParseChar) == Ok(Capture("A", 'A', afterStart)) &&
      Read(afterStart, ChecksumLine, ParseUsize) == Ok(Capture("6", 6, BlockText(BlockA) + BlockText(BlockB)))
  {
    ExampleTextStructure();
    var body := BlockText(BlockA) + BlockText(BlockB);
    StartRead(Line(ChecksumLine, "6") + body);
    StepsRead(body);
  }

  lemma StartRead(rest: string)
    ensures Read(Line(BeginLine, "A") + rest, BeginLine, ParseChar) == Ok(Capture("A", 'A', rest))
  {
    ReadComplete(BeginLine, "A", rest, ParseChar);
  }

  lemma StepsRead(rest: string)
    ensures Read(Line(ChecksumLine, "6") + rest, ChecksumLine, ParseUsize) == Ok(Capture("6", 6, rest))
  {
    ParseUsizeDigit('6');
    ReadComplete(ChecksumLine, "6", rest, ParseUsize);
  }

  /** `parse_blueprint(ExampleText, 2)` yields the two states A and B, start A and 6 steps. */
  lemma ExampleParses()
    ensures Parsed(ExampleText, 2) == Ok(ExampleBlueprint)
  {
    ExampleHeaderReads();
    ExampleLoop();
  }

  // The trace of the example (cursor positions relative to the start).

  const C0 := Config(map[], 0, StateA)
  const C1 := Config(map[0 := true], 1, StateB)
  const C2 := Config(map[0 := true, 1 := true], 0, StateA)
  const C3 := Config(map[0 := false, 1 := true], -1, StateB)
  const C4 := Config(map[-1 := true, 0 := false, 1 := true], -2, StateA)
  const C5 := Config(map[-2 := true, -1 := true, 0 := false, 1 := true], -1, StateB)
  const C6 := Config(map[-2 := true, -1 := true, 0 := false, 1 := true], 0, StateA)

  /** Each step of the example goes from one tape configuration of the trace to the next. */
  lemma ExampleSteps()
    ensures var states := ExampleBlueprint.states;
      Step(states, C0) == Ok(C1) && Step(states, C1) == Ok(C2) && Step(states, C2) == Ok(C3) &&
      Step(states, C3) == Ok(C4) && Step(states, C4) == Ok(C5) && Step(states, C5) == Ok(C6)
  {
    var states := ExampleBlueprint.states;
    assert Step(states, C0).value.tape == C1.tape;
    assert Step(states, C1).value.tape == C2.tape;
    assert Step(states, C2).value.tape == C3.tape;
    assert Step(states, C3).value.tape == C4.tape;
    assert Step(states, C4).value.tape == C5.tape;
    assert Step(states, C5).value.tape == C6.tape;
  }

  /** Six steps from the fresh tape end in the last configuration of the trace. */
  lemma ExampleTrace()
    ensures Run(ExampleBlueprint.states, C0, 6) == Ok(C6)
  {
    var states := ExampleBlueprint.states;
    ExampleSteps();
    assert Run(states, C5, 1) == Run(states, C6, 0);
    assert Run(states, C4, 2) == Run(states, C5, 1);
    assert Run(states, C3, 3) == Run(states, C4, 2);
    assert Run(states, C2, 4) == Run(states, C3, 3);
    assert Run(states, C1, 5) == Run(states, C2, 4);
    assert Run(states, C0, 6) == Run(states, C1, 5);
  }

  /** The diagnostic checksum of the example is 3, and with 0 steps it is 0. */
  lemma ExampleChecksum()
    ensures DiagnosticChecksum(ExampleBlueprint) == Ok(3)
    ensures DiagnosticChecksum(ExampleBlueprint.(diagnosticSteps := 0)) == Ok(0)
  {
    ExampleTrace();
    FinalChecksum();
  }

  lemma FinalChecksum()
    ensures Checksum(C6.tape) == 3
  {
    var t := C6.tape;
    assert (set x | x in t && t[x]) == {-2, -1, 1};
  }

  /** `test_a`: `solve_a` on the example text with two states returns 3. */
  lemma TestA()
    ensures Solution(ExampleText, 2) == Ok(3)
  {
    ExampleParses();
    ExampleChecksum();
  }

  lemma TruncatedHeaderReads()
    ensures var afterStart := Line(ChecksumLine, "6") + BlockText(BlockA);
      Read(ExampleHeader + ExampleBlockA, BeginLine, ParseChar) == Ok(Capture("A", 'A', afterStart)) &&
      Read(afterStart, ChecksumLine, ParseUsize) == Ok(Capture("6", 6, BlockText(BlockA)))
  {
    BlockTextA();
    HeaderText();
    var afterStart := Line(ChecksumLine, "6") + BlockText(BlockA);
    Assoc(Line(BeginLine, "A"), Line(ChecksumLine, "6"), BlockText(BlockA));
    StartRead(afterStart);
    StepsRead(BlockText(BlockA));
  }

  lemma TruncatedLoop()
    ensures BlockLoop(ParseBlock, BlockText(BlockA), 2, map[]) == Err(Scan(MissingMatch))
  {
    ParseUsizeDigit('0');
    ParseUsizeDigit('1');
    ParseBlockComplete(BlockA, "");
    assert BlockText(BlockA) + "" == BlockText(BlockA);
    var m1 := map['A' := StateA];
    assert BlockLoop(ParseBlock, BlockText(BlockA), 2, map[]) == BlockLoop(ParseBlock, "", 1, m1);
    ParseBlockReads();
    BlockLoopStep(ParseBlock, "", 1, m1);
  }

  /** The example with only its first block, parsed as if it declared two, fails. */
  lemma TruncatedExample()
    ensures Parsed(ExampleHeader + ExampleBlockA, 2) == Err(Scan(MissingMatch))
  {
    TruncatedHeaderReads();
    TruncatedLoop();
  }

  /** Block A with its two branches swapped fails on the first branch's declared value. */
  lemma SwappedBranchesFail()
    ensures ParseBlock(BlockText(BlockTokens("A", BlockA.one, BlockA.zero))) == Err(ValueMismatch(0, 1))
  {
    var swapped := BlockTokens("A", BlockA.one, BlockA.zero);
    assert BlockWellFormed(swapped) && ParseUsize(swapped.zero.value) == Some(1) by {
      ParseUsizeDigit('0');
      ParseUsizeDigit('1');
    }
    BranchOrderEnforced(swapped, "");
    assert BlockText(swapped) + "" == BlockText(swapped);
  }
}
