/** Day 1 of 2017 (`src/bin/one.rs`): the circular digit-match sum. */
module Captcha {
  import opened Wrappers

  type Digit = d: nat | d < 10

  predicate IsDigit(c: char) {
    '0' <= c <= '9'
  }

  /** `input.chars().map(|c| c.to_digit(10).unwrap())`: fails (the source
      panics) unless every character is a decimal digit. */
  function Digits(input: string): (r: Option<seq<Digit>>)
    ensures r.Some? <==> forall i :: 0 <= i < |input| ==> IsDigit(input[i])
    ensures r.Some? ==> |r.value| == |input|
    ensures r.Some? ==> forall i :: 0 <= i < |input| ==> r.value[i] == input[i] as int - '0' as int
  {
    if input == [] then Some([])
    else if !IsDigit(input[0]) then None
    else match Digits(input[1..])
      case None => None
      case Some(ds) => Some([input[0] as int - '0' as int] + ds)
  }

  /** What index `i` contributes: its digit when it equals the digit `offset`
      places further round the circle, else nothing. */
  function Term(d: seq<Digit>, offset: nat, i: nat): nat
    requires i < |d|
  {
    if d[i] == d[(i + offset) % |d|] then d[i] else 0
  }

  /** The sum of `Term` over the indices `lo .. hi - 1`. */
  function MatchSumRange(d: seq<Digit>, offset: nat, lo: nat, hi: nat): nat
    requires lo <= hi <= |d|
    decreases hi
  {
    if lo == hi then 0 else MatchSumRange(d, offset, lo, hi - 1) + Term(d, offset, hi - 1)
  }

  /** The sum of `d[i]` over every `i` with `d[i] == d[(i + offset) % n]`. */
  function MatchSum(d: seq<Digit>, offset: nat): nat {
    MatchSumRange(d, offset, 0, |d|)
  }

  /** `solve(input, offset)`: the indexed loop accumulating `sum`. */
  method Solve(input: string, offset: nat) returns (r: Option<nat>)
    ensures r.Some? <==> Digits(input).Some?
    ensures r.Some? ==> r.value == MatchSum(Digits(input).value, offset)
  {
    var parsed := Digits(input);
    if parsed.None? { return None; }
    var digits := parsed.value;
    var sum: nat := 0;
    for i := 0 to |digits|
      invariant sum == MatchSumRange(digits, offset, 0, i)
    {
      var j := (i + offset) % |digits|;
      var current: nat := digits[i];
      assert Term(digits, offset, i) == if current == digits[j] then current else 0;
      if current == digits[j] {
        sum := sum + current;
      }
    }
    r := Some(sum);
  }

  /** `solve_a`: each digit against the next one. */
  method SolveA(input: string) returns (r: Option<nat>)
    ensures r.Some? <==> Digits(input).Some?
    ensures r.Some? ==> r.value == MatchSum(Digits(input).value, 1)
  {
    r := Solve(input, 1);
  }

  /** `solve_b`: each digit against the one halfway round (`input.len()` is the
      number of digits, as every accepted character is one ASCII byte). */
  method SolveB(input: string) returns (r: Option<nat>)
    ensures r.Some? <==> Digits(input).Some?
    ensures r.Some? ==> r.value == MatchSum(Digits(input).value, |input| / 2)
  {
    r := Solve(input, |input| / 2);
  }

  // ---------------------------------------------------------------------
  // Properties

  /** Empty input parses to no digits, and no digits sum to 0 whatever the offset. */
  lemma EmptyInput()
    ensures Digits("") == Some([]) && forall offset: nat :: MatchSum([], offset) == 0
  {
  }

  /** Each term is a digit, so the sum over `k` indices is at most `9 * k`. */
  lemma {:induction false} MatchSumRangeBound(d: seq<Digit>, offset: nat, lo: nat, hi: nat)
    requires lo <= hi <= |d|
    ensures MatchSumRange(d, offset, lo, hi) <= 9 * (hi - lo)
    decreases hi
  {
    if lo < hi {
      MatchSumRangeBound(d, offset, lo, hi - 1);
    }
  }

  lemma MatchSumBound(d: seq<Digit>, offset: nat)
    ensures MatchSum(d, offset) <= 9 * |d|
  {
    MatchSumRangeBound(d, offset, 0, |d|);
  }

  /** If all digits are equal, every index matches and the sum is that of all
      the digits, `n * d[0]`, whatever the offset (so `solve_a("1111") == 4`). */
  lemma {:induction false} AllEqualRange(d: seq<Digit>, offset: nat, lo: nat, hi: nat)
    requires lo <= hi <= |d|
    requires forall i :: 0 <= i < |d| ==> d[i] == d[0]
    ensures MatchSumRange(d, offset, lo, hi) == (hi - lo) * (if d == [] then 0 else d[0])
    decreases hi
  {
    if lo < hi {
      AllEqualRange(d, offset, lo, hi - 1);
      assert Term(d, offset, hi - 1) == d[0];
    }
  }

  lemma AllEqualSumsAll(d: seq<Digit>, offset: nat)
    requires forall i :: 0 <= i < |d| ==> d[i] == d[0]
    ensures MatchSum(d, offset) == |d| * (if d == [] then 0 else d[0])
  {
    AllEqualRange(d, offset, 0, |d|);
  }

  /** The sum over `lo .. hi` splits at any `mid` in between. */
  lemma {:induction false} MatchSumRangeSplit(d: seq<Digit>, offset: nat, lo: nat, mid: nat, hi: nat)
    requires lo <= mid <= hi <= |d|
    ensures MatchSumRange(d, offset, lo, hi) == MatchSumRange(d, offset, lo, mid) + MatchSumRange(d, offset, mid, hi)
    decreases hi
  {
    if mid < hi {
      MatchSumRangeSplit(d, offset, lo, mid, hi - 1);
    }
  }

  /** With offset n/2 on an even-length list, index i and index i + n/2 compare
      the same pair of digits, so they contribute the same term. */
  lemma HalfwayTermsPair(d: seq<Digit>, i: nat)
    requires |d| % 2 == 0 && i < |d| / 2
    ensures Term(d, |d| / 2, i) == Term(d, |d| / 2, i + |d| / 2)
  {
    var h := |d| / 2;
    ModBelow(i + h, |d|);
    ModWrap(i + h + h, |d|);
  }

  lemma ModBelow(a: nat, n: nat)
    requires a < n
    ensures a % n == a
  {
  }

  lemma ModWrap(a: nat, n: nat)
    requires n <= a < 2 * n
    ensures a % n == a - n
  {
  }

  lemma {:induction false} HalfwayShift(d: seq<Digit>, j: nat)
    requires |d| % 2 == 0 && j <= |d| / 2
    ensures MatchSumRange(d, |d| / 2, |d| / 2, |d| / 2 + j) == MatchSumRange(d, |d| / 2, 0, j)
    decreases j
  {
    if j > 0 {
      HalfwayShift(d, j - 1);
      HalfwayTermsPair(d, j - 1);
    }
  }

  /** For even-length input `solve_b` is even: matches come in pairs, i and i + n/2. */
  lemma HalfwaySumIsEven(d: seq<Digit>)
    requires |d| % 2 == 0
    ensures MatchSum(d, |d| / 2) % 2 == 0
    ensures MatchSum(d, |d| / 2) == 2 * MatchSumRange(d, |d| / 2, 0, |d| / 2)
  {
    var h := |d| / 2;
    MatchSumRangeSplit(d, h, 0, h, |d|);
    HalfwayShift(d, h);
    assert h + h == |d|;
  }

  // ---------------------------------------------------------------------
  // The tests `smoke_a` and `smoke_b`.

  /** A digit string is read as the digits it spells. */
  lemma DigitsSpelled(input: string, ds: seq<Digit>)
    requires |input| == |ds|
    requires forall i :: 0 <= i < |input| ==> IsDigit(input[i]) && ds[i] == input[i] as int - '0' as int
    ensures Digits(input) == Some(ds)
  {
    assert Digits(input).value == ds;
  }

  lemma Smoke1122()
    ensures Digits("1122") == Some([1, 1, 2, 2]) && MatchSum([1, 1, 2, 2], 1) == 3
  {
    DigitsSpelled("1122", [1, 1, 2, 2]);
    Sum1122();
  }

  lemma Sum1122()
    ensures MatchSum([1, 1, 2, 2], 1) == 3
  {
    var d: seq<Digit> := [1, 1, 2, 2];
    assert Term(d, 1, 0) == 1;
    assert MatchSumRange(d, 1, 0, 1) == 1;
    assert Term(d, 1, 1) == 0;
    assert MatchSumRange(d, 1, 0, 2) == 1;
    assert Term(d, 1, 2) == 2;
    assert MatchSumRange(d, 1, 0, 3) == 3;
    assert Term(d, 1, 3) == 0;
    assert MatchSumRange(d, 1, 0, 4) == 3;
  }

  lemma Smoke1111()
    ensures Digits("1111") == Some([1, 1, 1, 1]) && MatchSum([1, 1, 1, 1], 1) == 4
  {
    DigitsSpelled("1111", [1, 1, 1, 1]);
    Sum1111();
  }

  lemma Sum1111()
    ensures MatchSum([1, 1, 1, 1], 1) == 4
  {
    var d: seq<Digit> := [1, 1, 1, 1];
    assert Term(d, 1, 0) == 1;
    assert MatchSumRange(d, 1, 0, 1) == 1;
    assert Term(d, 1, 1) == 1;
    assert MatchSumRange(d, 1, 0, 2) == 2;
    assert Term(d, 1, 2) == 1;
    assert MatchSumRange(d, 1, 0, 3) == 3;
    assert Term(d, 1, 3) == 1;
    assert MatchSumRange(d, 1, 0, 4) == 4;
  }

  lemma Smoke1234()
    ensures Digits("1234") == Some([1, 2, 3, 4]) && MatchSum([1, 2, 3, 4], 1) == 0
  {
    DigitsSpelled("1234", [1, 2, 3, 4]);
    Sum1234();
  }

  lemma Sum1234()
    ensures MatchSum([1, 2, 3, 4], 1) == 0
  {
    var d: seq<Digit> := [1, 2, 3, 4];
    assert Term(d, 1, 0) == 0;
    assert MatchSumRange(d, 1, 0, 1) == 0;
    assert Term(d, 1, 1) == 0;
    assert MatchSumRange(d, 1, 0, 2) == 0;
    assert Term(d, 1, 2) == 0;
    assert MatchSumRange(d, 1, 0, 3) == 0;
    assert Term(d, 1, 3) == 0;
    assert MatchSumRange(d, 1, 0, 4) == 0;
  }

  lemma Smoke91212129()
    ensures Digits("91212129") == Some([9, 1, 2, 1, 2, 1, 2, 9]) && MatchSum([9, 1, 2, 1, 2, 1, 2, 9], 1) == 9
  {
    DigitsSpelled("91212129", [9, 1, 2, 1, 2, 1, 2, 9]);
    Sum91212129();
  }

  lemma Sum91212129()
    ensures MatchSum([9, 1, 2, 1, 2, 1, 2, 9], 1) == 9
  {
    var d: seq<Digit> := [9, 1, 2, 1, 2, 1, 2, 9];
    assert Term(d, 1, 0) == 0;
    assert MatchSumRange(d, 1, 0, 1) == 0;
    assert Term(d, 1, 1) == 0;
    assert MatchSumRange(d, 1, 0, 2) == 0;
    assert Term(d, 1, 2) == 0;
    assert MatchSumRange(d, 1, 0, 3) == 0;
    assert Term(d, 1, 3) == 0;
    assert MatchSumRange(d, 1, 0, 4) == 0;
    assert Term(d, 1, 4) == 0;
    assert MatchSumRange(d, 1, 0, 5) == 0;
    assert Term(d, 1, 5) == 0;
    assert MatchSumRange(d, 1, 0, 6) == 0;
    assert Term(d, 1, 6) == 0;
    assert MatchSumRange(d, 1, 0, 7) == 0;
    assert Term(d, 1, 7) == 9;
    assert MatchSumRange(d, 1, 0, 8) == 9;
  }

  lemma Smoke1212()
    ensures Digits("1212") == Some([1, 2, 1, 2]) && MatchSum([1, 2, 1, 2], 2) == 6
  {
    DigitsSpelled("1212", [1, 2, 1, 2]);
    Sum1212();
  }

  lemma Sum1212()
    ensures MatchSum([1, 2, 1, 2], 2) == 6
  {
    var d: seq<Digit> := [1, 2, 1, 2];
    assert Term(d, 2, 0) == 1;
    assert MatchSumRange(d, 2, 0, 1) == 1;
    assert Term(d, 2, 1) == 2;
    assert MatchSumRange(d, 2, 0, 2) == 3;
    assert Term(d, 2, 2) == 1;
    assert MatchSumRange(d, 2, 0, 3) == 4;
    assert Term(d, 2, 3) == 2;
    assert MatchSumRange(d, 2, 0, 4) == 6;
  }

  lemma Smoke1221()
    ensures Digits("1221") == Some([1, 2, 2, 1]) && MatchSum([1, 2, 2, 1], 2) == 0
  {
    DigitsSpelled("1221", [1, 2, 2, 1]);
    Sum1221();
  }

  lemma Sum1221()
    ensures MatchSum([1, 2, 2, 1], 2) == 0
  {
    var d: seq<Digit> := [1, 2, 2, 1];
    assert Term(d, 2, 0) == 0;
    assert MatchSumRange(d, 2, 0, 1) == 0;
    assert Term(d, 2, 1) == 0;
    assert MatchSumRange(d, 2, 0, 2) == 0;
    assert Term(d, 2, 2) == 0;
    assert MatchSumRange(d, 2, 0, 3) == 0;
    assert Term(d, 2, 3) == 0;
    assert MatchSumRange(d, 2, 0, 4) == 0;
  }

  lemma Smoke123425()
    ensures Digits("123425") == Some([1, 2, 3, 4, 2, 5]) && MatchSum([1, 2, 3, 4, 2, 5], 3) == 4
  {
    DigitsSpelled("123425", [1, 2, 3, 4, 2, 5]);
    Sum123425();
  }

  lemma Sum123425()
    ensures MatchSum([1, 2, 3, 4, 2, 5], 3) == 4
  {
    var d: seq<Digit> := [1, 2, 3, 4, 2, 5];
    assert Term(d, 3, 0) == 0;
    assert MatchSumRange(d, 3, 0, 1) == 0;
    assert Term(d, 3, 1) == 2;
    assert MatchSumRange(d, 3, 0, 2) == 2;
    assert Term(d, 3, 2) == 0;
    assert MatchSumRange(d, 3, 0, 3) == 2;
    assert Term(d, 3, 3) == 0;
    assert MatchSumRange(d, 3, 0, 4) == 2;
    assert Term(d, 3, 4) == 2;
    assert MatchSumRange(d, 3, 0, 5) == 4;
    assert Term(d, 3, 5) == 0;
    assert MatchSumRange(d, 3, 0, 6) == 4;
  }

  lemma Smoke123123()
    ensures Digits("123123") == Some([1, 2, 3, 1, 2, 3]) && MatchSum([1, 2, 3, 1, 2, 3], 3) == 12
  {
    DigitsSpelled("123123", [1, 2, 3, 1, 2, 3]);
    Sum123123();
  }

  lemma Sum123123()
    ensures MatchSum([1, 2, 3, 1, 2, 3], 3) == 12
  {
    var d: seq<Digit> := [1, 2, 3, 1, 2, 3];
    assert Term(d, 3, 0) == 1;
    assert MatchSumRange(d, 3, 0, 1) == 1;
    assert Term(d, 3, 1) == 2;
    assert MatchSumRange(d, 3, 0, 2) == 3;
    assert Term(d, 3, 2) == 3;
    assert MatchSumRange(d, 3, 0, 3) == 6;
    assert Term(d, 3, 3) == 1;
    assert MatchSumRange(d, 3, 0, 4) == 7;
    assert Term(d, 3, 4) == 2;
    assert MatchSumRange(d, 3, 0, 5) == 9;
    assert Term(d, 3, 5) == 3;
    assert MatchSumRange(d, 3, 0, 6) == 12;
  }

  lemma Smoke12131415()
    ensures Digits("12131415") == Some([1, 2, 1, 3, 1, 4, 1, 5]) && MatchSum([1, 2, 1, 3, 1, 4, 1, 5], 4) == 4
  {
    DigitsSpelled("12131415", [1, 2, 1, 3, 1, 4, 1, 5]);
    Sum12131415();
  }

  lemma Sum12131415()
    ensures MatchSum([1, 2, 1, 3, 1, 4, 1, 5], 4) == 4
  {
    var d: seq<Digit> := [1, 2, 1, 3, 1, 4, 1, 5];
    assert Term(d, 4, 0) == 1;
    assert MatchSumRange(d, 4, 0, 1) == 1;
    assert Term(d, 4, 1) == 0;
    assert MatchSumRange(d, 4, 0, 2) == 1;
    assert Term(d, 4, 2) == 1;
    assert MatchSumRange(d, 4, 0, 3) == 2;
    assert Term(d, 4, 3) == 0;
    assert MatchSumRange(d, 4, 0, 4) == 2;
    assert Term(d, 4, 4) == 1;
    assert MatchSumRange(d, 4, 0, 5) == 3;
    assert Term(d, 4, 5) == 0;
    assert MatchSumRange(d, 4, 0, 6) == 3;
    assert Term(d, 4, 6) == 1;
    assert MatchSumRange(d, 4, 0, 7) == 4;
    assert Term(d, 4, 7) == 0;
    assert MatchSumRange(d, 4, 0, 8) == 4;
  }
}
