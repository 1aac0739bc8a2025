/** The observable behaviour of the `read!` macro of the `text_io` crate, as
    used by the blueprint parser: a pattern `prefix {} suffix` matches the
    literal prefix, captures characters up to the first character of what
    follows the placeholder (that terminator is consumed), parses the token,
    and then matches the rest of the pattern literally. Any mismatch is a
    failure (the source unwraps it, i.e. panics). */
module TextIo {
  import opened Wrappers

  /** A pattern `prefix + "{}" + [term] + suffix`. */
  datatype Pattern = Pattern(prefix: string, term: char, suffix: string)

  datatype ReadError =
    | MissingMatch          // the input does not carry the expected literal
    | BadToken(token: string) // the captured token does not parse

  /** What one `read!` consumed: the raw token, its parsed value and the
      input that remains. */
  datatype Capture<T> = Capture(token: string, value: T, rest: string)

  /** The text a pattern matches when `tok` is captured. */
  function Line(p: Pattern, tok: string): string {
    p.prefix + tok + [p.term] + p.suffix
  }

  /** Literal match: succeeds iff `lit` is a prefix of `s`, and returns what follows. */
  function ExpectLiteral(s: string, lit: string): (r: Option<string>)
    ensures r.Some? <==> lit <= s
    ensures r.Some? ==> s == lit + r.value
  {
    if lit <= s then Some(s[|lit|..]) else None
  }

  /** `take_while(|c| c != term)` on a consuming iterator: the terminator, when
      present, is consumed and not returned; when absent, everything is consumed. */
  function TakeUntil(s: string, term: char): (r: (string, string))
    ensures term !in r.0
    ensures term in s ==> s == r.0 + [term] + r.1
    ensures term !in s ==> r.0 == s && r.1 == []
  {
    if s == [] then ([], [])
    else if s[0] == term then ([], s[1..])
    else
      var (tok, rest) := TakeUntil(s[1..], term);
      assert s == [s[0]] + s[1..];
      ([s[0]] + tok, rest)
  }

  /** `read!(pattern, input)` with a `FromStr` parser for the captured token. */
  function Read<T>(s: string, p: Pattern, parse: string -> Option<T>): (r: Result<Capture<T>, ReadError>)
    // a returned token holds no terminator and is what the parser accepted
    ensures r.Ok? ==> p.term !in r.value.token && parse(r.value.token) == Some(r.value.value)
    // the prefix, the token and (when present) the terminator were consumed
    ensures r.Ok? ==> p.prefix <= s && |r.value.rest| <= |s| - |p.prefix| - |r.value.token|
    // a token is only rejected after the prefix matched, and only when the parser refuses it
    ensures r.Err? && r.error.BadToken? ==> p.prefix <= s && parse(r.error.token).None?
  {
    match ExpectLiteral(s, p.prefix)
    case None => Err(MissingMatch)
    case Some(after) =>
      var (tok, rest) := TakeUntil(after, p.term);
      match parse(tok)
      case None => Err(BadToken(tok))
      case Some(v) =>
        match ExpectLiteral(rest, p.suffix)
        case None => Err(MissingMatch)
        case Some(rest') => Ok(Capture(tok, v, rest'))
  }

  /** A successful read consumed exactly one line of the pattern: the token
      contains no terminator and parses to the returned value. */
  lemma ReadSound<T>(s: string, p: Pattern, parse: string -> Option<T>)
    requires p.suffix != []
    requires Read(s, p, parse).Ok?
    ensures var c := Read(s, p, parse).value;
      s == Line(p, c.token) + c.rest && p.term !in c.token && parse(c.token) == Some(c.value)
  {
    var after := ExpectLiteral(s, p.prefix).value;
    var (tok, rest) := TakeUntil(after, p.term);
    assert p.term in after;
    var rest' := ExpectLiteral(rest, p.suffix).value;
    assert after == tok + [p.term] + (p.suffix + rest');
    Assoc(tok + [p.term], p.suffix, rest');
    Assoc(p.prefix, tok + [p.term] + p.suffix, rest');
    assert Line(p, tok) == p.prefix + (tok + [p.term] + p.suffix);
  }

  /** Concatenation regroups to the right. */
  lemma Assoc(a: string, b: string, c: string)
    ensures a + b + c == a + (b + c)
  {
  }

  /** Conversely, one line of the pattern around a token without terminator
      is read back as that token, its value and exactly what follows. */
  lemma ReadComplete<T>(p: Pattern, tok: string, rest: string, parse: string -> Option<T>)
    requires p.term !in tok && parse(tok).Some?
    ensures Read(Line(p, tok) + rest, p, parse) == Ok(Capture(tok, parse(tok).value, rest))
  {
    var s := Line(p, tok) + rest;
    assert s == p.prefix + (tok + [p.term] + (p.suffix + rest));
    assert ExpectLiteral(s, p.prefix) == Some(tok + [p.term] + (p.suffix + rest));
    TakeUntilTerminated(tok, p.term, p.suffix + rest);
  }

  lemma {:induction false} TakeUntilTerminated(tok: string, term: char, rest: string)
    requires term !in tok
    ensures TakeUntil(tok + [term] + rest, term) == (tok, rest)
  {
    var s := tok + [term] + rest;
    if tok == [] {
      assert s[0] == term && s[1..] == rest;
    } else {
      assert s[0] == tok[0] && s[1..] == tok[1..] + [term] + rest;
      TakeUntilTerminated(tok[1..], term, rest);
      assert [tok[0]] + tok[1..] == tok;
    }
  }

  // Token parsers: the `FromStr` implementations the parser relies on.

  /** `char::from_str`: exactly one character. */
  function ParseChar(tok: string): (r: Option<char>)
    ensures r.Some? <==> |tok| == 1
    ensures r.Some? ==> tok == [r.value]
  {
    if |tok| == 1 then Some(tok[0]) else None
  }

  /** `String::from_str`: never fails. */
  function ParseString(tok: string): (r: Option<string>)
    ensures r == Some(tok)
  {
    Some(tok)
  }

  /** So a `String` read fails only on its literal parts. */
  lemma ReadStringOnlyLiterals(s: string, p: Pattern)
    ensures Read(s, p, ParseString).Err? ==> Read(s, p, ParseString).error == MissingMatch
  {
  }

  predicate IsDecimal(ds: string) {
    forall i :: 0 <= i < |ds| ==> '0' <= ds[i] <= '9'
  }

  /** The value of a string of decimal digits, most significant first. */
  function DecimalValue(ds: string): nat
    requires IsDecimal(ds)
  {
    if ds == [] then 0
    else DecimalValue(ds[..|ds| - 1]) * 10 + (ds[|ds| - 1] as int - '0' as int)
  }

  /** `usize::from_str`: an optional '+' followed by at least one decimal digit.
      The `ensures` only name the accepted digits; what the value means is
      given by the printer round trip `ParseUsizePrinted` and by the
      invariances `ParseUsizePlus` and `ParseUsizeLeadingZero`. */
  function ParseUsize(tok: string): (r: Option<nat>)
    ensures r.Some? <==> var ds := if tok != [] && tok[0] == '+' then tok[1..] else tok;
                          ds != [] && IsDecimal(ds)
    ensures r.Some? ==> var ds := if tok != [] && tok[0] == '+' then tok[1..] else tok;
                          IsDecimal(ds) && r.value == DecimalValue(ds)
  {
    var ds := if tok != [] && tok[0] == '+' then tok[1..] else tok;
    if ds != [] && IsDecimal(ds) then Some(DecimalValue(ds)) else None
  }

  lemma ParseUsizeDigit(c: char)
    requires '0' <= c <= '9'
    ensures ParseUsize([c]) == Some(c as int - '0' as int)
  {
    assert [c][..0] == [];
    assert IsDecimal([c]);
    assert DecimalValue([c]) == DecimalValue([]) * 10 + (c as int - '0' as int);
  }

  /** The decimal digit for `d`. */
  function DigitChar(d: nat): (c: char)
    requires d < 10
    ensures '0' <= c <= '9' && c as int - '0' as int == d
  {
    ('0' as int + d) as char
  }

  /** The shortest decimal spelling of `n`, as `usize`'s `Display` prints it. */
  function DecimalString(n: nat): (ds: string)
    ensures ds != [] && IsDecimal(ds) && '0' <= ds[0] <= '9'
    ensures DecimalValue(ds) == n
    decreases n
  {
    if n < 10 then
      var ds := [DigitChar(n)];
      assert ds[..0] == [];
      ds
    else
      var ds := DecimalString(n / 10) + [DigitChar(n % 10)];
      assert ds[..|ds| - 1] == DecimalString(n / 10);
      ds
  }

  /** Every number's decimal spelling parses back to that number. */
  lemma ParseUsizePrinted(n: nat)
    ensures ParseUsize(DecimalString(n)) == Some(n)
  {
  }

  /** One leading `+` is accepted and does not change the value. */
  lemma ParseUsizePlus(ds: string)
    requires ds == [] || ds[0] != '+'
    ensures ParseUsize("+" + ds) == ParseUsize(ds)
  {
    assert ("+" + ds)[1..] == ds;
  }

  /** Leading zeros do not change the value. */
  lemma {:induction false} LeadingZero(ds: string)
    requires IsDecimal(ds)
    ensures IsDecimal("0" + ds) && DecimalValue("0" + ds) == DecimalValue(ds)
    decreases |ds|
  {
    var zs := "0" + ds;
    if ds != [] {
      var init := ds[..|ds| - 1];
      LeadingZero(init);
      assert zs[..|zs| - 1] == "0" + init;
    }
  }

  /** A decimal token with leading zeros parses as the token without them. */
  lemma ParseUsizeLeadingZero(ds: string)
    requires ds != [] && IsDecimal(ds)
    ensures ParseUsize("0" + ds) == ParseUsize(ds)
  {
    LeadingZero(ds);
  }
}
