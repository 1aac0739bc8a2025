/** Day 25 of 2017: the Turing-machine blueprint, its data model and the
    line-oriented parser `parse_blueprint`. */
module Blueprint {
  import opened Wrappers
  import opened TextIo

  /** What a state does for one current tape value. `writeValue` is whatever
      number the blueprint says; the simulator writes a 1 iff it equals 1. */
  datatype Transition = Transition(writeValue: nat, moveLeft: bool, nextState: char)

  datatype State = State(falseTransition: Transition, trueTransition: Transition)

  /** The parser's result: starting state, diagnostic step count and the states by name. */
  datatype Blueprint = Blueprint(startingState: char, diagnosticSteps: nat, states: map<char, State>)

  datatype Failure =
    | Scan(error: ReadError)                   // a `read!` that fails (unwrap panics)
    | ValueMismatch(expected: nat, found: nat) // the `assert_eq!` on a branch's declared value
    | UnknownState(name: char)                 // indexing the state map with a missing key

  // The lines of the grammar, as `read!` patterns.
  const BeginLine := Pattern("Begin in state ", '.', "\n")
  const ChecksumLine := Pattern("Perform a diagnostic checksum after ", ' ', "steps.\n")
  const StateLine := Pattern("\nIn state ", ':', "\n")
  const ValueLine := Pattern("  If the current value is ", ':', "\n")
  const WriteLine := Pattern("    - Write the value ", '.', "\n")
  const MoveLine := Pattern("    - Move one slot to the ", '.', "\n")
  const ContinueLine := Pattern("    - Continue with state ", '.', "\n")

  function Lift<T>(r: Result<T, ReadError>): (r': Result<T, Failure>)
    ensures r.Ok? <==> r'.Ok?
    ensures r.Ok? ==> r'.value == r.value
    ensures r.Err? ==> r'.error == Scan(r.error)
  {
    match r
    case Ok(v) => Ok(v)
    case Err(e) => Err(Scan(e))
  }

  /** One branch as read by the `parse_transition` closure: the declared
      current value, the transition, and the remaining input. */
  datatype Branch = Branch(current: nat, transition: Transition, rest: string)

  /** One `In state` block: its name, its state, and the remaining input. */
  datatype Block = Block(name: char, state: State, rest: string)

  /** The `parse_transition` closure. */
  function ParseTransition(s: string): (r: Result<Branch, Failure>)
    // the closure only fails inside a `read!`
    ensures r.Err? ==> r.error.Scan?
    // it consumes at least its four line prefixes
    ensures r.Ok? ==> |r.value.rest| < |s|
  {
    var current :- Lift(Read(s, ValueLine, ParseUsize));
    var write :- Lift(Read(current.rest, WriteLine, ParseUsize));
    var direction :- Lift(Read(write.rest, MoveLine, ParseString));
    var next :- Lift(Read(direction.rest, ContinueLine, ParseChar));
    Ok(Branch(current.value, Transition(write.value, direction.value == "left", next.value), next.rest))
  }

  /** The body of the block loop: a state name, then the branch for value 0, then the branch for value 1. */
  function ParseBlock(s: string): (r: Result<Block, Failure>)
    // it fails in a `read!` or in one of the two `assert_eq!` checks, and then the found value differs
    ensures r.Err? ==> r.error.Scan? || r.error.ValueMismatch?
    ensures r.Err? && r.error.ValueMismatch? ==>
      (r.error.expected == 0 || r.error.expected == 1) && r.error.found != r.error.expected
    ensures r.Ok? ==> |r.value.rest| < |s|
  {
    var name :- Lift(Read(s, StateLine, ParseChar));
    var f :- ParseTransition(name.rest);
    if f.current != 0 then Err(ValueMismatch(0, f.current))
    else
      var t :- ParseTransition(f.rest);
      if t.current != 1 then Err(ValueMismatch(1, t.current))
      else Ok(Block(name.value, State(f.transition, t.transition), t.rest))
  }

  /** `k` more rounds of the block loop: each reads one block with `readBlock`
      (the source reads with `ParseBlock`) and inserts it into `states`. */
  function BlockLoop(readBlock: string -> Result<Block, Failure>, s: string, k: nat, states: map<char, State>)
    : (r: Result<(map<char, State>, string), Failure>)
    // no binding is ever removed
    ensures r.Ok? ==> states.Keys <= r.value.0.Keys
    decreases k
  {
    if k == 0 then Ok((states, s))
    else
      var b :- readBlock(s);
      BlockLoop(readBlock, b.rest, k - 1, states[b.name := b.state])
  }

  /** What `parse_blueprint(input, numStates)` returns, or the failure it panics with. */
  function Parsed(input: string, numStates: nat): Result<Blueprint, Failure> {
    var start :- Lift(Read(input, BeginLine, ParseChar));
    var steps :- Lift(Read(start.rest, ChecksumLine, ParseUsize));
    var blocks :- BlockLoop(ParseBlock, steps.rest, numStates, map[]);
    Ok(Blueprint(start.value, steps.value, blocks.0))
  }

  /** `parse_blueprint`: consumes the input step by step and inserts each block into the map. */
  method ParseBlueprint(input: string, numStates: nat) returns (r: Result<Blueprint, Failure>)
    ensures r == Parsed(input, numStates)
  {
    var start := Read(input, BeginLine, ParseChar);
    if start.Err? { return Err(Scan(start.error)); }
    var steps := Read(start.value.rest, ChecksumLine, ParseUsize);
    if steps.Err? { return Err(Scan(steps.error)); }

    var rest := steps.value.rest;
    var states: map<char, State> := map[];
    for i := 0 to numStates
      invariant BlockLoop(ParseBlock, steps.value.rest, numStates, map[]) == BlockLoop(ParseBlock, rest, numStates - i, states)
    {
      var name := Read(rest, StateLine, ParseChar);
      if name.Err? { return Err(Scan(name.error)); }
      var f := ParseTransition(name.value.rest);
      if f.Err? { return Err(f.error); }
      if f.value.current != 0 { return Err(ValueMismatch(0, f.value.current)); }
      var t := ParseTransition(f.value.rest);
      if t.Err? { return Err(t.error); }
      if t.value.current != 1 { return Err(ValueMismatch(1, t.value.current)); }
      states := states[name.value.value := State(f.value.transition, t.value.transition)];
      rest := t.value.rest;
    }
    r := Ok(Blueprint(start.value.value, steps.value.value, states));
  }

  // ---------------------------------------------------------------------
  // The grammar as text, with its tokens left raw.

  datatype BranchTokens = BranchTokens(value: string, write: string, direction: string, next: string)

  datatype BlockTokens = BlockTokens(name: string, zero: BranchTokens, one: BranchTokens)

  function BranchText(b: BranchTokens): string {
    Line(ValueLine, b.value) + Line(WriteLine, b.write) + Line(MoveLine, b.direction) + Line(ContinueLine, b.next)
  }

  function BlockText(bt: BlockTokens): string {
    Line(StateLine, bt.name) + BranchText(bt.zero) + BranchText(bt.one)
  }

  /** Every token is free of its line's terminator and parses as its type demands. */
  predicate BranchWellFormed(b: BranchTokens) {
    ':' !in b.value && ParseUsize(b.value).Some? &&
    '.' !in b.write && ParseUsize(b.write).Some? &&
    '.' !in b.direction &&
    '.' !in b.next && |b.next| == 1
  }

  predicate BlockWellFormed(bt: BlockTokens) {
    ':' !in bt.name && |bt.name| == 1 && BranchWellFormed(bt.zero) && BranchWellFormed(bt.one)
  }

  /** The transition a well-formed branch describes. */
  function TransitionOf(b: BranchTokens): Transition
    requires BranchWellFormed(b)
  {
    Transition(ParseUsize(b.write).value, b.direction == "left", b.next[0])
  }

  /** A parsed transition is exactly the four lines of one branch; in particular
      it moves left exactly when the direction token is "left". */
  lemma ParseTransitionSound(s: string)
    requires ParseTransition(s).Ok?
    ensures var br := ParseTransition(s).value;
      exists b :: BranchWellFormed(b) && s == BranchText(b) + br.rest &&
        Some(br.current) == ParseUsize(b.value) && br.transition == TransitionOf(b) &&
        (br.transition.moveLeft <==> b.direction == "left")
  {
    var b := ParseTransitionTokens(s);
  }

  /** The tokens of the branch a successful `parse_transition` read. */
  lemma ParseTransitionTokens(s: string) returns (b: BranchTokens)
    requires ParseTransition(s).Ok?
    ensures var br := ParseTransition(s).value;
      BranchWellFormed(b) && s == BranchText(b) + br.rest &&
      Some(br.current) == ParseUsize(b.value) && br.transition == TransitionOf(b)
  {
    var br := ParseTransition(s).value;
    var c1 := Read(s, ValueLine, ParseUsize).value;
    ReadSound(s, ValueLine, ParseUsize);
    var c2 := Read(c1.rest, WriteLine, ParseUsize).value;
    ReadSound(c1.rest, WriteLine, ParseUsize);
    var c3 := Read(c2.rest, MoveLine, ParseString).value;
    ReadSound(c2.rest, MoveLine, ParseString);
    var c4 := Read(c3.rest, ContinueLine, ParseChar).value;
    ReadSound(c3.rest, ContinueLine, ParseChar);
    b := BranchTokens(c1.token, c2.token, c3.token, c4.token);
    BranchRegroup(b, br.rest);
  }

  /** Conversely, the four lines of a well-formed branch are parsed as its
      declared value and transition, consuming exactly those lines. */
  lemma ParseTransitionComplete(b: BranchTokens, rest: string)
    requires BranchWellFormed(b)
    ensures ParseTransition(BranchText(b) + rest) == Ok(Branch(ParseUsize(b.value).value, TransitionOf(b), rest))
  {
    var l4 := Line(ContinueLine, b.next) + rest;
    var l3 := Line(MoveLine, b.direction) + l4;
    var l2 := Line(WriteLine, b.write) + l3;
    BranchRegroup(b, rest);
    ReadComplete(ValueLine, b.value, l2, ParseUsize);
    ReadComplete(WriteLine, b.write, l3, ParseUsize);
    ReadComplete(MoveLine, b.direction, l4, ParseString);
    ReadComplete(ContinueLine, b.next, rest, ParseChar);
  }

  /** A parsed block is exactly the lines of one `In state` block whose first
      branch declares value 0 and whose second declares value 1. */
  lemma ParseBlockSound(s: string)
    requires ParseBlock(s).Ok?
    ensures var blk := ParseBlock(s).value;
      exists bt :: BlockWellFormed(bt) && s == BlockText(bt) + blk.rest &&
        ParseUsize(bt.zero.value) == Some(0) && ParseUsize(bt.one.value) == Some(1) &&
        blk.name == bt.name[0] && blk.state == State(TransitionOf(bt.zero), TransitionOf(bt.one))
  {
    var bt := ParseBlockTokens(s);
  }

  /** A block the parser accepts: well formed, with branches declaring 0 and then 1. */
  predicate BlockAccepted(bt: BlockTokens) {
    BlockWellFormed(bt) && ParseUsize(bt.zero.value) == Some(0) && ParseUsize(bt.one.value) == Some(1)
  }

  /** The tokens of the block a successful block read consumed. */
  lemma ParseBlockTokens(s: string) returns (bt: BlockTokens)
    requires ParseBlock(s).Ok?
    ensures var blk := ParseBlock(s).value;
      BlockAccepted(bt) && s == BlockText(bt) + blk.rest &&
      blk.name == bt.name[0] && blk.state == State(TransitionOf(bt.zero), TransitionOf(bt.one))
  {
    var blk := ParseBlock(s).value;
    var name := Read(s, StateLine, ParseChar).value;
    ReadSound(s, StateLine, ParseChar);
    var f := ParseTransition(name.rest).value;
    var t := ParseTransition(f.rest).value;
    assert f.current == 0 && t.current == 1;
    assert blk == Block(name.value, State(f.transition, t.transition), t.rest);
    var b0 := ParseTransitionTokens(name.rest);
    var b1 := ParseTransitionTokens(f.rest);
    bt := BlockTokens(name.token, b0, b1);
    BlockRegroup(bt, blk.rest);
  }

  /** Conversely, a well-formed block whose branches declare 0 and then 1 is parsed. */
  lemma ParseBlockComplete(bt: BlockTokens, rest: string)
    requires BlockWellFormed(bt)
    requires ParseUsize(bt.zero.value) == Some(0) && ParseUsize(bt.one.value) == Some(1)
    ensures ParseBlock(BlockText(bt) + rest) ==
      Ok(Block(bt.name[0], State(TransitionOf(bt.zero), TransitionOf(bt.one)), rest))
  {
    var r1 := BranchText(bt.one) + rest;
    var r0 := BranchText(bt.zero) + r1;
    BlockRegroup(bt, rest);
    ReadComplete(StateLine, bt.name, r0, ParseChar);
    ParseTransitionComplete(bt.zero, r1);
    ParseTransitionComplete(bt.one, rest);
  }

  /** The branch order is enforced: a well-formed block whose first branch
      declares a value other than 0, or whose second declares a value other
      than 1, fails with that mismatch. */
  lemma BranchOrderEnforced(bt: BlockTokens, rest: string)
    requires BlockWellFormed(bt)
    requires ParseUsize(bt.zero.value) != Some(0) || ParseUsize(bt.one.value) != Some(1)
    ensures ParseUsize(bt.zero.value) != Some(0) ==>
      ParseBlock(BlockText(bt) + rest) == Err(ValueMismatch(0, ParseUsize(bt.zero.value).value))
    ensures ParseUsize(bt.zero.value) == Some(0) ==>
      ParseBlock(BlockText(bt) + rest) == Err(ValueMismatch(1, ParseUsize(bt.one.value).value))
  {
    var r1 := BranchText(bt.one) + rest;
    var r0 := BranchText(bt.zero) + r1;
    BlockRegroup(bt, rest);
    ReadComplete(StateLine, bt.name, r0, ParseChar);
    ParseTransitionComplete(bt.zero, r1);
    ParseTransitionComplete(bt.one, rest);
  }

  /** A branch followed by more input is its first line followed by the rest, line by line. */
  lemma BranchRegroup(b: BranchTokens, rest: string)
    ensures BranchText(b) + rest ==
      Line(ValueLine, b.value) + (Line(WriteLine, b.write) + (Line(MoveLine, b.direction) + (Line(ContinueLine, b.next) + rest)))
  {
    var l1, l2, l3, l4 := Line(ValueLine, b.value), Line(WriteLine, b.write), Line(MoveLine, b.direction), Line(ContinueLine, b.next);
    Assoc(l1 + l2 + l3, l4, rest);
    Assoc(l1 + l2, l3, l4 + rest);
    Assoc(l1, l2, l3 + (l4 + rest));
  }

  /** A block followed by more input is its name line, then its first branch, then the rest. */
  lemma BlockRegroup(bt: BlockTokens, rest: string)
    ensures BlockText(bt) + rest == Line(StateLine, bt.name) + (BranchText(bt.zero) + (BranchText(bt.one) + rest))
  {
    var l, b0, b1 := Line(StateLine, bt.name), BranchText(bt.zero), BranchText(bt.one);
    Assoc(l + b0, b1, rest);
    Assoc(l, b0, b1 + rest);
  }

  // ---------------------------------------------------------------------
  // The block loop seen as a list of declarations.

  datatype Decl = Decl(name: char, state: State)

  /** The `k` blocks that follow, in order, and the remaining input. */
  function BlocksRead(readBlock: string -> Result<Block, Failure>, s: string, k: nat): Result<(seq<Decl>, string), Failure>
    decreases k
  {
    if k == 0 then Ok(([], s))
    else
      var b :- readBlock(s);
      var more :- BlocksRead(readBlock, b.rest, k - 1);
      Ok(([Decl(b.name, b.state)] + more.0, more.1))
  }

  /** Inserting declarations into a map one after the other, as the block loop does. */
  function InsertAll(m: map<char, State>, decls: seq<Decl>): map<char, State>
    decreases |decls|
  {
    if decls == [] then m else InsertAll(m[decls[0].name := decls[0].state], decls[1..])
  }

  /** The names of a list of declarations. */
  function Names(decls: seq<Decl>): set<char> {
    set i | 0 <= i < |decls| :: decls[i].name
  }

  /** The block loop is "read the k blocks, then insert them in order". */
  lemma {:induction false} BlockLoopIsInsertAll(readBlock: string -> Result<Block, Failure>, s: string, k: nat,
                                                 m: map<char, State>)
    ensures BlocksRead(readBlock, s, k).Err? ==>
      BlockLoop(readBlock, s, k, m) == Err(BlocksRead(readBlock, s, k).error)
    ensures BlocksRead(readBlock, s, k).Ok? ==>
      var (decls, rest) := BlocksRead(readBlock, s, k).value;
      BlockLoop(readBlock, s, k, m) == Ok((InsertAll(m, decls), rest)) && |decls| == k
    decreases k
  {
    if k > 0 && readBlock(s).Ok? {
      var b := readBlock(s).value;
      var m' := m[b.name := b.state];
      BlockLoopIsInsertAll(readBlock, b.rest, k - 1, m');
      if BlocksRead(readBlock, b.rest, k - 1).Ok? {
        var more := BlocksRead(readBlock, b.rest, k - 1).value.0;
        assert ([Decl(b.name, b.state)] + more)[1..] == more;
      }
    }
  }

  /** After inserting `decls` into `m`, the keys are those of `m` plus the names
      inserted; a name inserted more than once keeps its LAST state; every
      other key keeps its value from `m`. */
  lemma InsertAllLastWins(m: map<char, State>, decls: seq<Decl>)
    ensures InsertAll(m, decls).Keys == m.Keys + Names(decls)
    ensures forall i :: 0 <= i < |decls| && (forall j :: i < j < |decls| ==> decls[j].name != decls[i].name) ==>
      InsertAll(m, decls)[decls[i].name] == decls[i].state
    ensures forall n :: n in m && n !in Names(decls) ==> InsertAll(m, decls)[n] == m[n]
  {
    InsertAllKeys(m, decls);
    InsertAllUntouched(m, decls);
    forall i | 0 <= i < |decls| && (forall j :: i < j < |decls| ==> decls[j].name != decls[i].name)
      ensures InsertAll(m, decls)[decls[i].name] == decls[i].state
    {
      InsertAllLast(m, decls, i);
    }
  }

  lemma NamesCons(decls: seq<Decl>)
    requires decls != []
    ensures Names(decls) == {decls[0].name} + Names(decls[1..])
  {
    var more := decls[1..];
    forall n | n in Names(decls) ensures n in {decls[0].name} + Names(more) {
      var i :| 0 <= i < |decls| && decls[i].name == n;
      if i > 0 { assert more[i - 1].name == n; }
    }
    forall n | n in Names(more) ensures n in Names(decls) {
      var i :| 0 <= i < |more| && more[i].name == n;
      assert decls[i + 1].name == n;
    }
  }

  lemma {:induction false} InsertAllKeys(m: map<char, State>, decls: seq<Decl>)
    ensures InsertAll(m, decls).Keys == m.Keys + Names(decls)
    decreases |decls|
  {
    if decls != [] {
      InsertAllKeys(m[decls[0].name := decls[0].state], decls[1..]);
      NamesCons(decls);
    }
  }

  lemma {:induction false} InsertAllUntouched(m: map<char, State>, decls: seq<Decl>)
    ensures forall n :: n in m && n !in Names(decls) ==> n in InsertAll(m, decls) && InsertAll(m, decls)[n] == m[n]
    decreases |decls|
  {
    if decls != [] {
      var m' := m[decls[0].name := decls[0].state];
      InsertAllUntouched(m', decls[1..]);
      NamesCons(decls);
      assert InsertAll(m, decls) == InsertAll(m', decls[1..]);
    }
  }

  lemma {:induction false} InsertAllLast(m: map<char, State>, decls: seq<Decl>, i: nat)
    requires i < |decls|
    requires forall j :: i < j < |decls| ==> decls[j].name != decls[i].name
    ensures decls[i].name in InsertAll(m, decls) && InsertAll(m, decls)[decls[i].name] == decls[i].state
    decreases |decls|
  {
    var m' := m[decls[0].name := decls[0].state];
    var more := decls[1..];
    if i == 0 {
      forall j | 0 <= j < |more| ensures more[j].name != decls[0].name {
        assert decls[j + 1] == more[j];
      }
      assert decls[0].name !in Names(more);
      InsertAllUntouched(m', more);
    } else {
      forall j | i - 1 < j < |more| ensures more[j].name != more[i - 1].name {
        assert decls[j + 1] == more[j];
      }
      InsertAllLast(m', more, i - 1);
    }
  }

  /** The block loop reads exactly `k` blocks, fails exactly when reading them
      fails, and leaves a map whose keys are the initial keys plus the names
      read, each name bound to the state of its LAST block. */
  lemma BlockLoopLastWins(readBlock: string -> Result<Block, Failure>, s: string, k: nat, m: map<char, State>)
    ensures BlockLoop(readBlock, s, k, m).Ok? <==> BlocksRead(readBlock, s, k).Ok?
    ensures BlockLoop(readBlock, s, k, m).Err? ==>
      BlockLoop(readBlock, s, k, m).error == BlocksRead(readBlock, s, k).error
    ensures BlockLoop(readBlock, s, k, m).Ok? ==>
      var (states, rest) := BlockLoop(readBlock, s, k, m).value;
      var (decls, rest') := BlocksRead(readBlock, s, k).value;
      rest == rest' && |decls| == k &&
      states.Keys == m.Keys + Names(decls) &&
      (forall i :: 0 <= i < |decls| && (forall j :: i < j < |decls| ==> decls[j].name != decls[i].name) ==>
         states[decls[i].name] == decls[i].state) &&
      (forall n :: n in m && n !in Names(decls) ==> states[n] == m[n])
  {
    BlockLoopIsInsertAll(readBlock, s, k, m);
    if BlocksRead(readBlock, s, k).Ok? {
      InsertAllLastWins(m, BlocksRead(readBlock, s, k).value.0);
    }
  }

  /** `parse_blueprint` returns the starting state and the step count exactly as
      captured from the first two lines, and one binding per block name read.
      This is the result of `ParsedSound` seen through the `read!` captures
      and the loop's own declarations rather than through the block texts. */
  lemma ParsedHeader(input: string, numStates: nat)
    requires Parsed(input, numStates).Ok?
    ensures var bp := Parsed(input, numStates).value;
      var start := Read(input, BeginLine, ParseChar).value;
      var steps := Read(start.rest, ChecksumLine, ParseUsize).value;
      input == Line(BeginLine, [bp.startingState]) + Line(ChecksumLine, steps.token) + steps.rest &&
      ParseUsize(steps.token) == Some(bp.diagnosticSteps) &&
      BlocksRead(ParseBlock, steps.rest, numStates).Ok? &&
      var decls := BlocksRead(ParseBlock, steps.rest, numStates).value.0;
      |decls| == numStates &&
      bp.states.Keys == Names(decls)
  {
    var start := Read(input, BeginLine, ParseChar).value;
    ReadSound(input, BeginLine, ParseChar);
    var steps := Read(start.rest, ChecksumLine, ParseUsize).value;
    ReadSound(start.rest, ChecksumLine, ParseUsize);
    BlockLoopLastWins(ParseBlock, steps.rest, numStates, map[]);
    assert input == Line(BeginLine, [start.value]) + (Line(ChecksumLine, steps.token) + steps.rest);
  }

  // ---------------------------------------------------------------------
  // The whole blueprint as text.

  /** The declaration an accepted block makes. */
  function DeclOf(bt: BlockTokens): Decl
    requires BlockWellFormed(bt)
  {
    Decl(bt.name[0], State(TransitionOf(bt.zero), TransitionOf(bt.one)))
  }

  predicate AllAccepted(bts: seq<BlockTokens>) {
    forall i :: 0 <= i < |bts| ==> BlockAccepted(bts[i])
  }

  /** Blocks one after the other. */
  function BlocksText(bts: seq<BlockTokens>): string {
    if bts == [] then [] else BlockText(bts[0]) + BlocksText(bts[1..])
  }

  function DeclsOf(bts: seq<BlockTokens>): seq<Decl>
    requires AllAccepted(bts)
  {
    if bts == [] then [] else [DeclOf(bts[0])] + DeclsOf(bts[1..])
  }

  /** The two header lines. */
  function Header(start: char, steps: string): string {
    Line(BeginLine, [start]) + Line(ChecksumLine, steps)
  }

  /** What a block reader must do on well-formed text: read every accepted
      block as its declaration and fail on exhausted input. `ParseBlock` does
      (`ParseBlockReads`). */
  ghost predicate ReadsAcceptedBlocks(readBlock: string -> Result<Block, Failure>) {
    (forall bt, rest :: ReadsAccepted(readBlock, bt, rest)) && readBlock([]) == Err(Scan(MissingMatch))
  }

  ghost predicate ReadsAccepted(readBlock: string -> Result<Block, Failure>, bt: BlockTokens, rest: string) {
    BlockAccepted(bt) ==> readBlock(BlockText(bt) + rest) == Ok(Block(bt.name[0], DeclOf(bt).state, rest))
  }

  /** What a block reader may return: only the text of an accepted block, followed by the rest. */
  ghost predicate ReadsOnlyAcceptedBlocks(readBlock: string -> Result<Block, Failure>) {
    forall s :: ReadAsAccepted(readBlock, s)
  }

  ghost predicate ReadAsAccepted(readBlock: string -> Result<Block, Failure>, s: string) {
    readBlock(s).Ok? ==>
      exists bt :: (BlockAccepted(bt) && s == BlockText(bt) + readBlock(s).value.rest &&
                    Decl(readBlock(s).value.name, readBlock(s).value.state) == DeclOf(bt))
  }

  lemma ParseBlockReads()
    ensures ReadsAcceptedBlocks(ParseBlock) && ReadsOnlyAcceptedBlocks(ParseBlock)
  {
    forall bt, rest ensures ReadsAccepted(ParseBlock, bt, rest) {
      if BlockAccepted(bt) {
        ParseBlockComplete(bt, rest);
      }
    }
    forall s ensures ReadAsAccepted(ParseBlock, s) {
      if ParseBlock(s).Ok? {
        var bt := ParseBlockTokens(s);
      }
    }
  }

  /** The tokens of the `k` blocks a successful read of `k` blocks consumed. */
  lemma {:induction false} BlocksReadTokens(readBlock: string -> Result<Block, Failure>, s: string, k: nat)
    returns (bts: seq<BlockTokens>)
    requires ReadsOnlyAcceptedBlocks(readBlock)
    requires BlocksRead(readBlock, s, k).Ok?
    ensures var (decls, rest) := BlocksRead(readBlock, s, k).value;
      |bts| == k && AllAccepted(bts) && s == BlocksText(bts) + rest && decls == DeclsOf(bts)
    decreases k
  {
    if k == 0 {
      bts := [];
      assert s == [] + s;
    } else {
      BlocksReadStep(readBlock, s, k);
      var b := readBlock(s).value;
      var bt := ReadOnlyAccepted(readBlock, s);
      var more := BlocksReadTokens(readBlock, b.rest, k - 1);
      bts := [bt] + more;
      ConsBlocks(bt, more);
      Assoc(BlockText(bt), BlocksText(more), BlocksRead(readBlock, s, k).value.1);
    }
  }

  /** The tokens of the block a reader that reads only accepted blocks has just read. */
  lemma ReadOnlyAccepted(readBlock: string -> Result<Block, Failure>, s: string) returns (bt: BlockTokens)
    requires ReadsOnlyAcceptedBlocks(readBlock) && readBlock(s).Ok?
    ensures var b := readBlock(s).value;
      BlockAccepted(bt) && s == BlockText(bt) + b.rest && Decl(b.name, b.state) == DeclOf(bt)
  {
    assert ReadAsAccepted(readBlock, s);
    var b := readBlock(s).value;
    bt :| BlockAccepted(bt) && s == BlockText(bt) + b.rest && Decl(b.name, b.state) == DeclOf(bt);
  }

  /** One accepted block in front of others. */
  lemma ConsBlocks(bt: BlockTokens, more: seq<BlockTokens>)
    requires BlockAccepted(bt) && AllAccepted(more)
    ensures var bts := [bt] + more;
      AllAccepted(bts) && BlocksText(bts) == BlockText(bt) + BlocksText(more) &&
      DeclsOf(bts) == [DeclOf(bt)] + DeclsOf(more)
  {
    var bts := [bt] + more;
    assert bts[0] == bt && bts[1..] == more;
    forall i | 0 < i < |bts| ensures BlockAccepted(bts[i]) {
      assert bts[i] == more[i - 1];
    }
  }

  /** One round of reading blocks, in both directions. */
  lemma BlocksReadStep(readBlock: string -> Result<Block, Failure>, s: string, k: nat)
    requires k > 0
    ensures BlocksRead(readBlock, s, k).Ok? <==>
      readBlock(s).Ok? && BlocksRead(readBlock, readBlock(s).value.rest, k - 1).Ok?
    ensures BlocksRead(readBlock, s, k).Ok? ==>
      var b := readBlock(s).value;
      var more := BlocksRead(readBlock, b.rest, k - 1).value;
      BlocksRead(readBlock, s, k).value == ([Decl(b.name, b.state)] + more.0, more.1)
  {
  }

  /** A round of reading blocks fails when the block read fails or when the remaining rounds fail. */
  lemma BlocksReadFails(readBlock: string -> Result<Block, Failure>, s: string, k: nat, e: Failure)
    requires k > 0
    requires readBlock(s) == Err(e) || (readBlock(s).Ok? && BlocksRead(readBlock, readBlock(s).value.rest, k - 1) == Err(e))
    ensures BlocksRead(readBlock, s, k) == Err(e)
  {
  }

  /** One round of the block loop. */
  lemma BlockLoopStep(readBlock: string -> Result<Block, Failure>, s: string, k: nat, m: map<char, State>)
    requires k > 0
    ensures readBlock(s).Err? ==> BlockLoop(readBlock, s, k, m) == Err(readBlock(s).error)
    ensures readBlock(s).Ok? ==> var b := readBlock(s).value;
      BlockLoop(readBlock, s, k, m) == BlockLoop(readBlock, b.rest, k - 1, m[b.name := b.state])
  {
  }

  /** A reader that reads accepted blocks reads this one. */
  lemma ReadAccepted(readBlock: string -> Result<Block, Failure>, bt: BlockTokens, rest: string)
    requires ReadsAcceptedBlocks(readBlock) && BlockAccepted(bt)
    ensures readBlock(BlockText(bt) + rest) == Ok(Block(bt.name[0], DeclOf(bt).state, rest))
  {
    assert ReadsAccepted(readBlock, bt, rest);
  }

  /** Conversely, accepted blocks one after the other are read as their declarations. */
  lemma {:induction false} BlocksReadComplete(readBlock: string -> Result<Block, Failure>, bts: seq<BlockTokens>,
                                               rest: string)
    requires ReadsAcceptedBlocks(readBlock)
    requires AllAccepted(bts)
    ensures BlocksRead(readBlock, BlocksText(bts) + rest, |bts|) == Ok((DeclsOf(bts), rest))
    decreases |bts|
  {
    if bts == [] {
      assert BlocksText(bts) + rest == rest;
    } else {
      var more := bts[1..];
      assert AllAccepted(more);
      Assoc(BlockText(bts[0]), BlocksText(more), rest);
      ReadAccepted(readBlock, bts[0], BlocksText(more) + rest);
      BlocksReadComplete(readBlock, more, rest);
      BlocksReadStep(readBlock, BlocksText(bts) + rest, |bts|);
      assert DeclsOf(bts) == [DeclOf(bts[0])] + DeclsOf(more);
    }
  }

  /** Fewer blocks than expected: once the blocks run out, the next block read fails. */
  lemma TooFewBlocksFail(readBlock: string -> Result<Block, Failure>, bts: seq<BlockTokens>, k: nat)
    requires ReadsAcceptedBlocks(readBlock)
    requires AllAccepted(bts) && k > |bts|
    ensures BlocksRead(readBlock, BlocksText(bts), k) == Err(Scan(MissingMatch))
  {
    var s := BlocksText(bts);
    BlocksReadComplete(readBlock, bts, []);
    assert s + [] == s;
    BlocksReadFails(readBlock, [], k - |bts|, Scan(MissingMatch));
    BlocksReadFailsAfter(readBlock, s, |bts|, k);
  }

  /** When the rounds after the first `j` of `n` fail, the whole read fails the same way. */
  lemma {:induction false} BlocksReadFailsAfter(readBlock: string -> Result<Block, Failure>, s: string, j: nat, n: nat)
    requires j <= n && BlocksRead(readBlock, s, j).Ok?
    requires BlocksRead(readBlock, BlocksRead(readBlock, s, j).value.1, n - j).Err?
    ensures BlocksRead(readBlock, s, n) == BlocksRead(readBlock, BlocksRead(readBlock, s, j).value.1, n - j)
    decreases j
  {
    if j > 0 {
      BlocksReadStep(readBlock, s, j);
      var rest := readBlock(s).value.rest;
      BlocksReadFailsAfter(readBlock, rest, j - 1, n - 1);
      assert BlocksRead(readBlock, s, j).value.1 == BlocksRead(readBlock, rest, j - 1).value.1;
      BlocksReadFails(readBlock, s, n, BlocksRead(readBlock, rest, n - 1).error);
    }
  }

  /** A successful parse consumed the two header lines and then exactly
      `num_states` accepted blocks; the map is those blocks' declarations
      inserted in order. */
  lemma ParsedSound(input: string, numStates: nat)
    requires Parsed(input, numStates).Ok?
    ensures var bp := Parsed(input, numStates).value;
      exists steps, bts, rest :: input == Header(bp.startingState, steps) + BlocksText(bts) + rest &&
        ParseUsize(steps) == Some(bp.diagnosticSteps) && |bts| == numStates && AllAccepted(bts) &&
        bp.states == InsertAll(map[], DeclsOf(bts))
  {
    var steps, bts, rest := ParsedTokens(input, numStates);
  }

  lemma ParsedTokens(input: string, numStates: nat) returns (steps: string, bts: seq<BlockTokens>, rest: string)
    requires Parsed(input, numStates).Ok?
    ensures var bp := Parsed(input, numStates).value;
      input == Header(bp.startingState, steps) + BlocksText(bts) + rest &&
      ParseUsize(steps) == Some(bp.diagnosticSteps) && |bts| == numStates && AllAccepted(bts) &&
      bp.states == InsertAll(map[], DeclsOf(bts))
  {
    var start := Read(input, BeginLine, ParseChar).value;
    ReadSound(input, BeginLine, ParseChar);
    var c := Read(start.rest, ChecksumLine, ParseUsize).value;
    ReadSound(start.rest, ChecksumLine, ParseUsize);
    BlockLoopIsInsertAll(ParseBlock, c.rest, numStates, map[]);
    ParseBlockReads();
    bts := BlocksReadTokens(ParseBlock, c.rest, numStates);
    steps, rest := c.token, BlocksRead(ParseBlock, c.rest, numStates).value.1;
    Assoc(Line(BeginLine, [start.value]), Line(ChecksumLine, steps), c.rest);
    Assoc(Header(start.value, steps), BlocksText(bts), rest);
  }

  /** Conversely, two header lines followed by accepted blocks are parsed as
      that blueprint, with the blocks' declarations inserted in order. */
  lemma ParsedComplete(start: char, steps: string, bts: seq<BlockTokens>, rest: string)
    requires start != '.' && ' ' !in steps && ParseUsize(steps).Some? && AllAccepted(bts)
    ensures Parsed(Header(start, steps) + BlocksText(bts) + rest, |bts|) ==
      Ok(Blueprint(start, ParseUsize(steps).value, InsertAll(map[], DeclsOf(bts))))
  {
    var body := BlocksText(bts) + rest;
    HeaderReads(start, steps, body);
    Assoc(Header(start, steps), BlocksText(bts), rest);
    ParseBlockReads();
    BlocksReadComplete(ParseBlock, bts, rest);
    BlockLoopIsInsertAll(ParseBlock, body, |bts|, map[]);
  }

  /** Two header lines followed by fewer accepted blocks than `num_states` fail to parse. */
  lemma ParsedTooFewBlocks(start: char, steps: string, bts: seq<BlockTokens>, numStates: nat)
    requires start != '.' && ' ' !in steps && ParseUsize(steps).Some? && AllAccepted(bts)
    requires numStates > |bts|
    ensures Parsed(Header(start, steps) + BlocksText(bts), numStates) == Err(Scan(MissingMatch))
  {
    HeaderReads(start, steps, BlocksText(bts));
    ParseBlockReads();
    TooFewBlocksFail(ParseBlock, bts, numStates);
    BlockLoopIsInsertAll(ParseBlock, BlocksText(bts), numStates, map[]);
  }

  /** The two header lines are read as their tokens. */
  lemma HeaderReads(start: char, steps: string, body: string)
    requires start != '.' && ' ' !in steps && ParseUsize(steps).Some?
    ensures var afterStart := Line(ChecksumLine, steps) + body;
      Read(Header(start, steps) + body, BeginLine, ParseChar) == Ok(Capture([start], start, afterStart)) &&
      Read(afterStart, ChecksumLine, ParseUsize) == Ok(Capture(steps, ParseUsize(steps).value, body))
  {
    Assoc(Line(BeginLine, [start]), Line(ChecksumLine, steps), body);
    ReadComplete(BeginLine, [start], Line(ChecksumLine, steps) + body, ParseChar);
    ReadComplete(ChecksumLine, steps, body, ParseUsize);
  }
}
