/** Day 25 of 2017, part one: running the parsed machine on a sparse tape
    and taking the diagnostic checksum (`solve_a`). */
module TuringMachine {
  import opened Wrappers
  import opened Blueprint

  /** The tape: only cells the cursor has visited are present; every other cell reads as 0. */
  type Tape = map<int, bool>

  /** The value under position `x`: a missing cell reads as false. */
  function Cell(tape: Tape, x: int): (b: bool)
    ensures x !in tape ==> !b
    ensures x in tape ==> b == tape[x]
  {
    x in tape && tape[x]
  }

  /** The simulator's variables between two steps: the tape, the cursor `x` and the current state. */
  datatype Config = Config(tape: Tape, cursor: int, state: State)

  /** The transition a step takes: the false branch on a 0 (or unvisited) cell, the true branch on a 1. */
  function Selected(c: Config): (t: Transition)
    ensures c.cursor !in c.tape ==> t == c.state.falseTransition
    ensures c.cursor in c.tape && !c.tape[c.cursor] ==> t == c.state.falseTransition
    ensures c.cursor in c.tape && c.tape[c.cursor] ==> t == c.state.trueTransition
  {
    if Cell(c.tape, c.cursor) then c.state.trueTransition else c.state.falseTransition
  }

  /** One round of the simulation loop. It fails when the next state is no key of `states`. */
  function Step(states: map<char, State>, c: Config): (r: Result<Config, Failure>)
    ensures r.Err? <==> Selected(c).nextState !in states
    ensures r.Err? ==> r.error == UnknownState(Selected(c).nextState)
    ensures r.Ok? ==> r.value.state == states[Selected(c).nextState]
    // the cell under the cursor now holds 1 iff the transition writes the value 1
    ensures r.Ok? ==> c.cursor in r.value.tape && r.value.tape[c.cursor] == (Selected(c).writeValue == 1)
    // the cursor moves by exactly one place, to the left iff the transition says so
    ensures r.Ok? ==> r.value.cursor == c.cursor + (if Selected(c).moveLeft then -1 else 1)
    // no other cell is touched, and only the cell under the cursor can become materialised
    ensures r.Ok? ==> forall y :: y != c.cursor ==> (y in r.value.tape <==> y in c.tape)
    ensures r.Ok? ==> forall y :: y != c.cursor && y in c.tape ==> r.value.tape[y] == c.tape[y]
  {
    var t := Selected(c);
    var tape := c.tape[c.cursor := Cell(c.tape, c.cursor)][c.cursor := t.writeValue == 1];
    var x := if t.moveLeft then c.cursor - 1 else c.cursor + 1;
    if t.nextState in states then Ok(Config(tape, x, states[t.nextState]))
    else Err(UnknownState(t.nextState))
  }

  /** `k` rounds of the simulation loop. */
  function Run(states: map<char, State>, c: Config, k: nat): (r: Result<Config, Failure>)
    // the only way the loop stops early is a transition to an undeclared state
    ensures r.Err? ==> r.error.UnknownState? && r.error.name !in states
    // a visited cell is never removed, and the cursor moves by one place per round
    ensures r.Ok? ==> c.tape.Keys <= r.value.tape.Keys
    ensures r.Ok? ==> c.cursor - k <= r.value.cursor <= c.cursor + k
    decreases k
  {
    if k == 0 then Ok(c)
    else
      var c' :- Step(states, c);
      Run(states, c', k - 1)
  }

  /** The number of cells holding 1. */
  function Checksum(tape: Tape): (n: nat)
    ensures n <= |tape|
    ensures n == 0 <==> forall x :: x in tape ==> !tape[x]
  {
    var ones := set x | x in tape && tape[x];
    SubsetCard(ones, tape.Keys);
    assert forall x :: x in tape && tape[x] ==> x in ones;
    assert (forall x :: x in tape ==> !tape[x]) ==> ones == {};
    |ones|
  }

  /** What `solve_a` computes from a parsed blueprint, or the failure it panics with. */
  function DiagnosticChecksum(bp: Blueprint): Result<nat, Failure> {
    if bp.startingState !in bp.states then Err(UnknownState(bp.startingState))
    else
      var c :- Run(bp.states, Config(map[], 0, bp.states[bp.startingState]), bp.diagnosticSteps);
      Ok(Checksum(c.tape))
  }

  /** What `solve_a(input, numStates)` returns, or the failure it panics with. */
  function Solution(input: string, numStates: nat): Result<nat, Failure> {
    var bp :- Parsed(input, numStates);
    DiagnosticChecksum(bp)
  }

  /** `solve_a`: parse, then run the machine. */
  method SolveA(input: string, numStates: nat) returns (r: Result<nat, Failure>)
    ensures r == Solution(input, numStates)
  {
    var parsed := ParseBlueprint(input, numStates);
    if parsed.Err? { return Err(parsed.error); }
    r := RunMachine(parsed.value);
  }

  /** The body of `solve_a` after parsing: the loop on a fresh tape and the final count. */
  method RunMachine(bp: Blueprint) returns (r: Result<nat, Failure>)
    ensures r == DiagnosticChecksum(bp)
  {
    var states := bp.states;
    var x := 0;
    var tape: Tape := map[];
    if bp.startingState !in states { return Err(UnknownState(bp.startingState)); }
    var current := states[bp.startingState];
    ghost var start := Config(map[], 0, current);

    for i := 0 to bp.diagnosticSteps
      invariant Run(states, start, bp.diagnosticSteps) == Run(states, Config(tape, x, current), bp.diagnosticSteps - i)
    {
      // tape.entry(x).or_insert(false)
      var slot := if x in tape then tape[x] else false;
      tape := tape[x := slot];
      var transition := if slot then current.trueTransition else current.falseTransition;
      tape := tape[x := transition.writeValue == 1];
      if transition.moveLeft { x := x - 1; } else { x := x + 1; }
      if transition.nextState !in states { return Err(UnknownState(transition.nextState)); }
      current := states[transition.nextState];
    }
    r := Ok(Checksum(tape));
  }

  // ---------------------------------------------------------------------
  // Bounds

  /** After `k` steps the cursor is at most `k` places away, at most `k` new
      cells are materialised, and every new cell lies strictly within `k` places. */
  lemma {:induction false} RunBounds(states: map<char, State>, c: Config, k: nat)
    requires Run(states, c, k).Ok?
    ensures var c' := Run(states, c, k).value;
      c.cursor - k <= c'.cursor <= c.cursor + k &&
      |c'.tape| <= |c.tape| + k &&
      forall y :: y in c'.tape ==> y in c.tape || c.cursor - k < y < c.cursor + k
    decreases k
  {
    if k > 0 {
      var c1 := Step(states, c).value;
      RunBounds(states, c1, k - 1);
      assert c1.tape.Keys == c.tape.Keys + {c.cursor};
      assert |c1.tape| <= |c.tape| + 1 by {
        SubsetCard(c1.tape.Keys, c.tape.Keys + {c.cursor});
      }
    }
  }

  lemma {:induction false} SubsetCard<T>(a: set<T>, b: set<T>)
    requires a <= b
    ensures |a| <= |b|
    decreases |b|
  {
    if a != {} {
      var x :| x in a;
      SubsetCard(a - {x}, b - {x});
    }
  }

  /** From the fresh tape, after `k` steps: |x| <= k, at most `k` cells exist,
      all of them within distance `k` of the origin, and the checksum is at most
      `k`; so zero steps give checksum 0. */
  lemma DiagnosticChecksumBound(bp: Blueprint)
    requires DiagnosticChecksum(bp).Ok?
    ensures DiagnosticChecksum(bp).value <= bp.diagnosticSteps
    ensures bp.diagnosticSteps == 0 ==> DiagnosticChecksum(bp).value == 0
    ensures var c := Run(bp.states, Config(map[], 0, bp.states[bp.startingState]), bp.diagnosticSteps).value;
      var k: int := bp.diagnosticSteps;
      -k <= c.cursor <= k && |c.tape| <= k && forall y :: y in c.tape ==> -k < y < k
  {
    var c0 := Config(map[], 0, bp.states[bp.startingState]);
    RunBounds(bp.states, c0, bp.diagnosticSteps);
  }

  /** The run fails at once when the starting state is not declared. */
  lemma UnknownStartingState(bp: Blueprint)
    requires bp.startingState !in bp.states
    ensures DiagnosticChecksum(bp) == Err(UnknownState(bp.startingState))
  {
  }
}
