# Advent of Code 2017, days 1 and 25, in Dafny

This project models two puzzle solutions of an Advent of Code 2017 repository and proves properties of them.

**Day 25, "The Halting Problem"** (`2017/src/bin/twenty_five.rs`). Part one is modelled in full:

- The blueprint parser `parse_blueprint` reads the text with the `read!` macro of the `text_io` crate. It returns three things:
  - the starting state;
  - the number of diagnostic steps;
  - a map from state names to `State` values. A `State` has two `Transition`s: one for tape value 0 and one for tape value 1.
- `solve_a` runs that Turing machine on a sparse tape for the given number of steps, then counts the cells that hold 1. This count is the diagnostic checksum.

**Day 1, "Inverse Captcha"** (`src/bin/one.rs`). `solve` converts the input to digits first. It then adds up every digit that equals the digit `offset` places further round the circular list. `solve_a` uses offset 1. `solve_b` uses half the input length.

Modules:

- `Wrappers`: the `Option` and `Result` types, used for error paths.
- `TextIo`: what a `read!` call with a pattern `prefix {} suffix` observably does:
  - it matches the literal prefix;
  - it captures characters up to the first character after the placeholder, and consumes that character;
  - it parses the token with the `FromStr` parser of the target type;
  - it then matches the rest of the pattern literally.

  Every mismatch is a failure. The source unwraps each result and so panics; the model returns `Err`. The token parsers are modelled for `char` (exactly one character), `usize` (an optional `+` and then decimal digits) and `String` (never fails).
- `Blueprint`: the data model and the parser.
  - The parser is the imperative method `ParseBlueprint`. Its loop inserts one block per round into a map. It is proved equal to the recursive specification `Parsed`.
  - The lemmas relate the parser to the grammar's text, for one branch, one block and the whole blueprint. A successful parse consumed exactly the two header lines and then `num_states` accepted blocks, and its map is their declarations inserted in order (soundness). Conversely, such a text is parsed as exactly that blueprint (completeness), and one with fewer blocks than `num_states` fails.
  - The branch order 0-then-1 is enforced.
  - A state name declared twice keeps its last block.
- `TuringMachine`: the simulation.
  - A step selects the transition from the cell under the cursor; an unvisited cell reads as 0. The step writes the cell, moves the cursor and looks up the next state.
  - The method `RunMachine` is the loop of `solve_a`. It is proved equal to the recursive `Run` followed by the checksum.
  - The lemmas give bounds on cursor, tape and checksum.
- `TwentyFiveExample`: the blueprint of `test_a`, its parse, its six-step trace from the puzzle text, and its checksum 3.
- `Captcha`: the Day 1 loop as the method `Solve`, proved equal to the sum `MatchSum`. Properties of that sum are proved as lemmas, and the tests `smoke_a` and `smoke_b` are proved case by case.

Where the puzzle text and the code differ, the model follows the code:

- A transition's written value is any number the blueprint gives. The cell becomes 1 only when that number is exactly 1.
- The direction token may be any word. The cursor moves left iff the token is `left`, and moves right otherwise.
- The step count may be 0.
- A state name that is referenced but never declared is not rejected by the parser. It fails only when the simulation reaches it. The next-state lookup happens at the end of every step, the last one included.
- Input left over after the last block is ignored.

## Model

| member | source | states |
|---|---|---|
| TextIo.ExpectLiteral | 2017/src/bin/twenty_five.rs:98-99 | matching a literal succeeds iff the literal is a prefix of the input, and returns exactly what follows it |
| TextIo.TakeUntil | 2017/src/bin/twenty_five.rs:98-99 | the captured token never contains the terminator. When the terminator occurs, the input is token, terminator, rest. When it does not, everything is captured |
| TextIo.Read | 2017/src/bin/twenty_five.rs:98-105 | a successful `read!` matched the prefix and returns a token free of the terminator, which the token parser accepts with the returned value. A token is reported bad only after the prefix matched, and only when the parser refuses it |
| TextIo.ReadSound | 2017/src/bin/twenty_five.rs:98-105 | a successful `read!` consumed exactly one line of its pattern, around a token free of the terminator that parses to the returned value |
| TextIo.ReadComplete | 2017/src/bin/twenty_five.rs:98-105 | a pattern line around a parseable token free of the terminator is read back as that token and value, leaving exactly what follows |
| TextIo.ParseChar | 2017/src/bin/twenty_five.rs:98 | a `char` token parses iff it is exactly one character, and yields that character |
| TextIo.ParseUsize | 2017/src/bin/twenty_five.rs:99 | a `usize` token parses iff it is a nonempty run of decimal digits, optionally after one `+`, and then yields the decimal value of those digits |
| TextIo.DecimalString | 2017/src/bin/twenty_five.rs:99 | every number has a nonempty decimal spelling, starting with a digit, whose decimal value is that number |
| TextIo.ParseUsizePrinted | 2017/src/bin/twenty_five.rs:99 | parsing the decimal spelling of any number gives that number back |
| TextIo.ParseUsizePlus | 2017/src/bin/twenty_five.rs:99 | one leading `+` changes neither whether a token parses nor its value |
| TextIo.ParseUsizeLeadingZero | 2017/src/bin/twenty_five.rs:99 | a leading `0` in front of a nonempty run of digits does not change the value |
| TextIo.ParseString | 2017/src/bin/twenty_five.rs:104 | the `String` parser accepts every token and returns it unchanged |
| TextIo.ReadStringOnlyLiterals | 2017/src/bin/twenty_five.rs:104 | so the direction `read!` fails only on a missing literal, never on its token |
| TextIo.ParseUsizeDigit | 2017/src/bin/twenty_five.rs:102 | a single digit parses as its own value |
| Blueprint.ParseBlueprint | 2017/src/bin/twenty_five.rs:96-127 | the imperative parser returns exactly the specification `Parsed`: header, then `num_states` blocks inserted into the map in order, or the first failure |
| Blueprint.ParseTransition | 2017/src/bin/twenty_five.rs:101-110 | the closure fails only inside one of its four `read!` calls, and a successful call consumes input |
| Blueprint.ParseTransitionSound | 2017/src/bin/twenty_five.rs:101-110 | a successful `parse_transition` consumed exactly the four lines of a well-formed branch. It returns that branch's declared value and transition, and `move_left` holds iff the direction token is `left` |
| Blueprint.ParseTransitionComplete | 2017/src/bin/twenty_five.rs:101-110 | the four lines of any well-formed branch are parsed as its declared value and transition, consuming exactly those lines |
| Blueprint.ParseBlock | 2017/src/bin/twenty_five.rs:115-123 | a block fails only inside a `read!` or in one of the two `assert_eq!` checks. A mismatch reports the expected 0 or 1 and a different found value. A successful block consumes input |
| Blueprint.ParseBlockSound | 2017/src/bin/twenty_five.rs:115-122 | a successfully parsed block is exactly the lines of one `In state` block whose branches declare 0 and then 1, and its state is built from those branches |
| Blueprint.ParseBlockComplete | 2017/src/bin/twenty_five.rs:115-122 | every well-formed block whose branches declare 0 and then 1 is parsed, with its name and state, consuming exactly its lines |
| Blueprint.BranchOrderEnforced | 2017/src/bin/twenty_five.rs:116-120 | a block whose first branch does not declare 0, or whose second does not declare 1, fails with that mismatch (the `assert_eq!` checks) |
| Blueprint.BlockLoop | 2017/src/bin/twenty_five.rs:112-124 | the loop never removes a binding that was already in the map |
| Blueprint.BlockLoopIsInsertAll | 2017/src/bin/twenty_five.rs:112-124 | the block loop equals reading the `k` blocks in order and then inserting them one by one. It fails with the error of the first block read that fails |
| Blueprint.InsertAllLastWins | 2017/src/bin/twenty_five.rs:123 | after the insertions, the keys are the old keys plus the names inserted. A name inserted twice holds its last state. Every other key keeps its old value |
| Blueprint.BlockLoopLastWins | 2017/src/bin/twenty_five.rs:112-124 | the loop succeeds iff all `k` blocks are read, and returns the same error otherwise. On success it read exactly `k` blocks, and the map's keys are the names read, each bound to the state of its last block |
| Blueprint.ParsedHeader | 2017/src/bin/twenty_five.rs:97-126 | a parsed blueprint's starting state and step count are the tokens of the two header lines. Exactly `num_states` blocks were read, and the map's keys are their names |
| Blueprint.ParseBlockReads | 2017/src/bin/twenty_five.rs:115-123 | the block body reads every accepted block, followed by anything, as that block's declaration. It fails on exhausted input, and whatever it reads is the text of an accepted block |
| Blueprint.BlocksReadTokens | 2017/src/bin/twenty_five.rs:112-124 | a successful read of `k` blocks consumed exactly the texts of `k` accepted blocks, and returns their declarations in order |
| Blueprint.BlocksReadComplete | 2017/src/bin/twenty_five.rs:112-124 | conversely, accepted blocks one after the other are read as their declarations, leaving exactly what follows |
| Blueprint.TooFewBlocksFail | 2017/src/bin/twenty_five.rs:114-115 | reading more blocks than the text holds fails on the first missing `In state` line |
| Blueprint.ParsedSound | 2017/src/bin/twenty_five.rs:96-127 | a successful parse consumed the two header lines, exactly `num_states` accepted blocks and a remainder. Its start and step count are the header's tokens, and its map is the blocks' declarations inserted in order |
| Blueprint.ParsedComplete | 2017/src/bin/twenty_five.rs:96-127 | conversely, the two header lines followed by accepted blocks and any remainder parse as that blueprint, with the blocks' declarations inserted in order |
| Blueprint.ParsedTooFewBlocks | 2017/src/bin/twenty_five.rs:114-115 | the two header lines followed by fewer accepted blocks than `num_states` fail to parse |
| TuringMachine.Cell | 2017/src/bin/twenty_five.rs:137 | a cell that was never visited reads as 0 (false); a visited cell reads its stored value |
| TuringMachine.Selected | 2017/src/bin/twenty_five.rs:137-142 | a visited cell holding 1 selects the true transition, one holding 0 the false transition, and an unvisited cell (inserted as 0) the false transition |
| TuringMachine.Step | 2017/src/bin/twenty_five.rs:137-146 | a step fails iff its next state is undeclared. Otherwise the cursor cell becomes present and holds 1 iff the written value is 1, and the cursor moves by one (left iff `move_left`). No other cell changes |
| TuringMachine.Run | 2017/src/bin/twenty_five.rs:136-147 | the loop stops early only on a next state that is not declared. A visited cell is never removed, and after `k` rounds the cursor is within `k` places of where it was |
| TuringMachine.Checksum | 2017/src/bin/twenty_five.rs:149 | the count of cells holding 1 is at most the number of cells on the tape, and it is 0 iff no cell holds 1 |
| TuringMachine.RunMachine | 2017/src/bin/twenty_five.rs:132-149 | the simulation loop returns exactly the checksum of `Run` from a fresh tape at position 0. It fails when the starting state or a next state is undeclared |
| TuringMachine.SolveA | 2017/src/bin/twenty_five.rs:129-150 | `solve_a` is parsing followed by the simulation, failing where either fails |
| TuringMachine.RunBounds | 2017/src/bin/twenty_five.rs:136-147 | after `k` steps the cursor is within `k` places of where it started. At most `k` new cells exist, each strictly within `k` places |
| TuringMachine.DiagnosticChecksumBound | 2017/src/bin/twenty_five.rs:132-149 | the checksum is at most the step count, so zero steps give 0. The cursor and every cell stay within distance `k` of the origin |
| TuringMachine.UnknownStartingState | 2017/src/bin/twenty_five.rs:134 | an undeclared starting state fails before any step |
| TwentyFiveExample.ExampleTextStructure | 2017/src/bin/twenty_five.rs:191-213 | the text of `test_a` is the two header lines followed by the blocks of states A and B, in the grammar's terms |
| TwentyFiveExample.ExampleParses | 2017/src/bin/twenty_five.rs:189-215 | parsing that text with two states gives start A, 6 steps and the two states of the puzzle |
| TwentyFiveExample.ExampleSteps | 2017/src/bin/twenty_five.rs:51-57 | each step of the example goes from one tape configuration of the puzzle's trace to the next |
| TwentyFiveExample.ExampleTrace | 2017/src/bin/twenty_five.rs:51-57 | six steps from the blank tape end in the last configuration of the trace |
| TwentyFiveExample.ExampleChecksum | 2017/src/bin/twenty_five.rs:59 | the example's checksum is 3, and with zero steps it is 0 |
| TwentyFiveExample.TestA | 2017/src/bin/twenty_five.rs:187-217 | `solve_a` on the example text with two states gives 3 |
| TwentyFiveExample.TruncatedExample | 2017/src/bin/twenty_five.rs:114-115 | the example text cut after its first block, read as two states, fails |
| TwentyFiveExample.SwappedBranchesFail | 2017/src/bin/twenty_five.rs:116-117 | block A with its branches in the order 1-then-0 fails on the first `assert_eq!` |
| Captcha.Digits | src/bin/one.rs:36 | the conversion succeeds iff every character is a decimal digit, and then yields each character's value in order |
| Captcha.Solve | src/bin/one.rs:35-48 | the loop returns a value iff every character is a digit, and that value is the sum of the digits equal to the digit `offset` places further round the circle. The modulo is only taken inside the loop, where the list is nonempty, so never by 0 |
| Captcha.SolveA | src/bin/one.rs:50-52 | `solve_a` is that sum with offset 1 |
| Captcha.SolveB | src/bin/one.rs:54-57 | `solve_b` is that sum with offset half the input length |
| Captcha.EmptyInput | src/bin/one.rs:36-47 | the empty input converts to no digits, and no digits sum to 0 whatever the offset |
| Captcha.MatchSumBound | src/bin/one.rs:39-45 | the sum is at most 9 times the number of digits |
| Captcha.AllEqualSumsAll | src/bin/one.rs:39-45 | when all digits are equal, every digit counts, whatever the offset |
| Captcha.MatchSumRangeSplit | src/bin/one.rs:39-45 | the sum over a range of indices splits at any point in between |
| Captcha.HalfwayTermsPair | src/bin/one.rs:54-57 | with offset n/2 on an even-length list, index `i` and index `i + n/2` compare the same two digits and contribute the same amount |
| Captcha.HalfwaySumIsEven | src/bin/one.rs:54-57 | for even-length input the halfway sum is twice the sum over the first half, hence even |
| Captcha.DigitsSpelled | src/bin/one.rs:36 | a digit string converts to the digits it spells |
| Captcha.Smoke1122 | src/bin/one.rs:79 | `solve_a("1122")` is 3 |
| Captcha.Smoke1111 | src/bin/one.rs:80 | `solve_a("1111")` is 4 |
| Captcha.Smoke1234 | src/bin/one.rs:81 | `solve_a("1234")` is 0 |
| Captcha.Smoke91212129 | src/bin/one.rs:82 | `solve_a("91212129")` is 9 |
| Captcha.Smoke1212 | src/bin/one.rs:87 | `solve_b("1212")` is 6 (offset 2) |
| Captcha.Smoke1221 | src/bin/one.rs:88 | `solve_b("1221")` is 0 (offset 2) |
| Captcha.Smoke123425 | src/bin/one.rs:89 | `solve_b("123425")` is 4 (offset 3) |
| Captcha.Smoke123123 | src/bin/one.rs:90 | `solve_b("123123")` is 12 (offset 3) |
| Captcha.Smoke12131415 | src/bin/one.rs:91 | `solve_b("12131415")` is 4 (offset 4) |

## Left out

- The `main` functions of both files (2017/src/bin/twenty_five.rs:72-80, src/bin/one.rs:28-33): they read a file or standard input and print. The input becomes a parameter.
- `solve_b` of Day 25 (2017/src/bin/twenty_five.rs:183-185) is not modelled. It returns a constant string and has no logic.
- Panics (`unwrap`, `assert_eq!`, indexing a map with a missing key) become `Err` or `None` results. The process abort itself is not modelled.
- The `text_io` crate is not part of this model. Only the observable behaviour of `read!` on the patterns used here is modelled. The model also works on characters, not on the UTF-8 bytes the source iterates over. The two agree on ASCII blueprints.
- TextIo.ParseUsize: does not model `usize` overflow. Tokens larger than the machine word are accepted with their exact value, where the source would fail to parse them.
- Captcha.Solve: does not model the `u32` overflow of `sum` (a panic in debug builds, wrap-around in release). The sum is at most 9 times the number of digits (Captcha.MatchSumBound), so overflow needs more than 477 million digits.
- TuringMachine.RunMachine: does not model overflow of the 32-bit cursor `x`. The cursor stays within the step count of the origin (TuringMachine.RunBounds), so overflow needs at least 2^31 steps.
- The iteration order of the `HashMap`s is not modelled. The checksum counts values and does not depend on it.
- Re-serialising a parsed blueprint, or a parse-then-print round trip, is not stated. The source has no printer. The grammar lemmas instead relate the parser to the grammar's text.
- No validation is modelled of tape values beyond 0/1, of directions other than `left`/`right`, or of undeclared next states at parse time. The source does no such validation.
