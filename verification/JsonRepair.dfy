/**
 * Repair of raw control characters inside JSON strings
 * (packages/core/agents/builder-protocol.ts).
 */
module JsonRepair {
  import opened Lists

  // ---------------------------------------------------------------- the scanner

  /** Where the scanner stands: outside any string, inside one, or right after a backslash inside one. */
  datatype Lexer = Outside | Inside | Escaped

  function Next(st: Lexer, c: char): Lexer {
    match st
    case Outside => if c == '"' then Inside else Outside
    case Inside => if c == '\\' then Escaped else if c == '"' then Outside else Inside
    case Escaped => Inside
  }

  function Lex(st: Lexer, s: string): Lexer
    decreases |s|
  {
    if s == [] then st else Lex(Next(st, s[0]), s[1..])
  }

  predicate IsRaw(c: char) {
    c == '\n' || c == '\r' || c == '\t'
  }

  function EscapeLetter(c: char): char
    requires IsRaw(c)
  {
    if c == '\n' then 'n' else if c == '\r' then 'r' else 't'
  }

  function Fixed(st: Lexer, c: char): string {
    if st == Inside && IsRaw(c) then ['\\', EscapeLetter(c)] else [c]
  }

  function Repair(st: Lexer, s: string): string
    decreases |s|
  {
    if s == [] then [] else Fixed(st, s[0]) + Repair(Next(st, s[0]), s[1..])
  }

  function State(inString: bool, escaped: bool): Lexer {
    if !inString then Outside else if escaped then Escaped else Inside
  }

  method EscapeJsonStringControlCharacters(value: string) returns (result: string)
    ensures result == Repair(Outside, value)
  {
    result := "";
    var inString, escaped := false, false;
    for i := 0 to |value|
      invariant escaped ==> inString
      invariant State(inString, escaped) == Lex(Outside, value[..i])
      invariant result == Repair(Outside, value[..i])
    {
      var character := value[i];
      Snoc(Outside, value[..i], character);
      assert value[..i + 1] == value[..i] + [character];
      if !inString {
        result := result + [character];
        if character == '"' { inString := true; }
        continue;
      }
      if escaped {
        result := result + [character];
        escaped := false;
        continue;
      }
      if character == '\\' {
        result := result + [character];
        escaped := true;
        continue;
      }
      if character == '"' {
        result := result + [character];
        inString := false;
        continue;
      }
      if character == '\n' {
        result := result + ['\\', 'n'];
      } else if character == '\r' {
        result := result + ['\\', 'r'];
      } else if character == '\t' {
        result := result + ['\\', 't'];
      } else {
        result := result + [character];
      }
    }
    assert value[..|value|] == value;
  }

  // ---------------------------------------------------------------- what the scanner keeps

  lemma {:induction false} Concat(st: Lexer, s: string, t: string)
    ensures Lex(st, s + t) == Lex(Lex(st, s), t)
    ensures Repair(st, s + t) == Repair(st, s) + Repair(Lex(st, s), t)
    decreases |s|
  {
    if s == [] {
      assert s + t == t;
    } else {
      Concat(Next(st, s[0]), s[1..], t);
      assert (s + t)[1..] == s[1..] + t;
      ConcatAssoc(Fixed(st, s[0]), Repair(Next(st, s[0]), s[1..]), Repair(Lex(st, s), t));
    }
  }

  lemma {:induction false} Snoc(st: Lexer, s: string, c: char)
    ensures Lex(st, s + [c]) == Next(Lex(st, s), c)
    ensures Repair(st, s + [c]) == Repair(st, s) + Fixed(Lex(st, s), c)
  {
    Concat(st, s, [c]);
  }

  /** Inside a string a line feed, a carriage return and a tab become their two-character escapes; all else stays. */
  lemma {:induction false} RepairedByCharacter(st: Lexer, s: string, c: char)
    ensures Repair(st, s + [c]) == Repair(st, s) +
      if Lex(st, s) == Inside && c == '\n' then "\\n"
      else if Lex(st, s) == Inside && c == '\r' then "\\r"
      else if Lex(st, s) == Inside && c == '\t' then "\\t"
      else [c]
  {
    Snoc(st, s, c);
  }

  lemma {:induction false} FixedKeepsState(st: Lexer, c: char)
    ensures Lex(st, Fixed(st, c)) == Next(st, c)
    ensures Repair(st, Fixed(st, c)) == Fixed(st, c)
  {
    if st == Inside && IsRaw(c) {
      var e := EscapeLetter(c);
      assert Fixed(st, c)[1..] == [e] && [e][1..] == [];
      assert Repair(Escaped, [e]) == [e] && Lex(Escaped, [e]) == Inside;
    } else {
      assert Fixed(st, c)[1..] == [];
    }
  }

  /** After its output the scanner is where it was after its input. */
  lemma {:induction false} RepairKeepsState(st: Lexer, s: string)
    ensures Lex(st, Repair(st, s)) == Lex(st, s)
    decreases |s|
  {
    if s != [] {
      FixedKeepsState(st, s[0]);
      RepairKeepsState(Next(st, s[0]), s[1..]);
      Concat(st, Fixed(st, s[0]), Repair(Next(st, s[0]), s[1..]));
    }
  }

  /** Every prefix of the input is repaired to a prefix of the output, with the scanner in the same state there. */
  lemma {:induction false} PrefixesAgree(st: Lexer, s: string, k: nat)
    requires k <= |s|
    ensures Repair(st, s[..k]) <= Repair(st, s)
    ensures Lex(st, Repair(st, s[..k])) == Lex(st, s[..k])
  {
    assert s[..k] + s[k..] == s;
    Concat(st, s[..k], s[k..]);
    RepairKeepsState(st, s[..k]);
  }

  lemma {:induction false} RepairIsIdempotent(st: Lexer, s: string)
    ensures Repair(st, Repair(st, s)) == Repair(st, s)
    decreases |s|
  {
    if s != [] {
      var rest := Repair(Next(st, s[0]), s[1..]);
      FixedKeepsState(st, s[0]);
      RepairIsIdempotent(Next(st, s[0]), s[1..]);
      Concat(st, Fixed(st, s[0]), rest);
    }
  }

  /** No raw line feed, carriage return or tab stands inside a string, escapes aside. */
  ghost predicate Clean(st: Lexer, s: string) {
    forall k :: 0 <= k < |s| && s[k] in ['\n', '\r', '\t'] ==> Lex(st, s[..k]) != Inside
  }

  lemma {:induction false} CleanSteps(st: Lexer, s: string)
    requires s != []
    ensures Clean(st, s) <==> !(st == Inside && IsRaw(s[0])) && Clean(Next(st, s[0]), s[1..])
  {
    var rest, after := s[1..], Next(st, s[0]);
    assert forall k :: 0 <= k < |rest| ==> s[..k + 1] == [s[0]] + rest[..k] && s[k + 1] == rest[k];
    assert forall k :: 0 <= k < |rest| ==> s[..k + 1][0] == s[0] && s[..k + 1][1..] == rest[..k];
    assert forall k :: 0 <= k < |rest| ==> Lex(st, s[..k + 1]) == Lex(after, rest[..k]);
    assert s[..0] == [];
    if Clean(st, s) {
      forall k | 0 <= k < |rest| && IsRaw(rest[k]) ensures Lex(after, rest[..k]) != Inside {
        assert IsRaw(s[k + 1]);
      }
    } else {
      var k :| 0 <= k < |s| && IsRaw(s[k]) && Lex(st, s[..k]) == Inside;
      if k > 0 {
        assert IsRaw(rest[k - 1]) && Lex(after, rest[..k - 1]) == Lex(st, s[..k - 1 + 1]);
      }
    }
  }

  /** The repair changes exactly the texts that need it. */
  lemma {:induction false} IdentityIffClean(st: Lexer, s: string)
    ensures Repair(st, s) == s <==> Clean(st, s)
    decreases |s|
  {
    if s != [] {
      var rest := Repair(Next(st, s[0]), s[1..]);
      CleanSteps(st, s);
      IdentityIffClean(Next(st, s[0]), s[1..]);
      assert s == [s[0]] + s[1..];
      if st == Inside && IsRaw(s[0]) {
        assert |Repair(st, s)| == 2 + |rest|;
      } else {
        PrefixCancel([s[0]], rest, s[1..]);
      }
    }
  }

  // ---------------------------------------------------------------- reading strings

  /** A character of the text outside strings, one character of a string's value, or an error. */
  datatype Symbol = Syntax(c: char) | Body(code: int) | Bad

  /** What one of the two-character escapes of section 7 of RFC 8259 stands for. */
  function Unescape(c: char): Option<int> {
    if c == '"' || c == '\\' || c == '/' then Some(c as int)
    else if c == 'b' then Some(8)
    else if c == 'f' then Some(12)
    else if c == 'n' then Some(10)
    else if c == 'r' then Some(13)
    else if c == 't' then Some(9)
    else None
  }

  predicate IsHex(c: char) {
    '0' <= c <= '9' || 'a' <= c <= 'f' || 'A' <= c <= 'F'
  }

  function HexValue(c: char): int
    requires IsHex(c)
  {
    if c <= '9' then c as int - '0' as int
    else if c <= 'F' then c as int - 'A' as int + 10
    else c as int - 'a' as int + 10
  }

  predicate StartsWithHex(s: string, n: nat) {
    n == 0 || (s != [] && IsHex(s[0]) && StartsWithHex(s[1..], n - 1))
  }

  function HexNumber(s: string, n: nat, sofar: int): int
    requires StartsWithHex(s, n)
  {
    if n == 0 then sofar else HexNumber(s[1..], n - 1, sofar * 16 + HexValue(s[0]))
  }

  /** The text after a backslash: what the escape means and how much of the text it takes. */
  function ReadEscape(s: string): (r: (Symbol, nat))
    ensures r.1 <= |s|
  {
    if s == [] then (Bad, 0)
    else if s[0] == 'u' && StartsWithHex(s[1..], 4) then
      HexFits(s[1..], 4);
      (Body(HexNumber(s[1..], 4, 0)), 5)
    else if s[0] != 'u' && Unescape(s[0]).Some? then (Body(Unescape(s[0]).value), 1)
    else (Bad, 1)
  }

  lemma {:induction false} HexFits(s: string, n: nat)
    requires StartsWithHex(s, n)
    ensures |s| >= n
  {
    if n > 0 { HexFits(s[1..], n - 1); }
  }

  /** A control character may not stand unescaped in a string; a lenient reader takes three of them as themselves. */
  function ReadChar(lenient: bool, c: char): Symbol {
    if c < ' ' && !(lenient && c in ['\n', '\r', '\t']) then Bad else Body(c as int)
  }

  function Decode(lenient: bool, inside: bool, s: string): seq<Symbol>
    decreases |s|
  {
    if s == [] then []
    else if !inside then [Syntax(s[0])] + Decode(lenient, s[0] == '"', s[1..])
    else if s[0] == '"' then [Syntax(s[0])] + Decode(lenient, false, s[1..])
    else if s[0] == '\\' then
      var (symbol, n) := ReadEscape(s[1..]);
      [symbol] + Decode(lenient, true, s[1 + n..])
    else [ReadChar(lenient, s[0])] + Decode(lenient, true, s[1..])
  }

  lemma {:induction false} HexIsKept(s: string, n: nat)
    ensures StartsWithHex(Repair(Inside, s), n) <==> StartsWithHex(s, n)
    ensures StartsWithHex(s, n) ==> |s| >= n && Repair(Inside, s) == s[..n] + Repair(Inside, s[n..])
    ensures StartsWithHex(s, n) ==>
      forall sofar :: HexNumber(Repair(Inside, s), n, sofar) == HexNumber(s, n, sofar)
  {
    if n == 0 {
      assert s[..0] + Repair(Inside, s[0..]) == Repair(Inside, s);
    } else if s != [] {
      HexIsKept(s[1..], n - 1);
      if IsHex(s[0]) {
        assert Repair(Inside, s)[1..] == Repair(Inside, s[1..]);
        if StartsWithHex(s, n) {
          var tail := s[1..];
          assert s[..n] == [s[0]] + tail[..n - 1] && tail[n - 1..] == s[n..];
          ConcatAssoc([s[0]], tail[..n - 1], Repair(Inside, s[n..]));
        }
      }
    }
  }

  /** An escape reads the same after the repair, and the repair goes on behind it. */
  lemma {:induction false} EscapeIsKept(s: string)
    ensures var (symbol, n) := ReadEscape(s);
      ReadEscape(Repair(Escaped, s)) == (symbol, n) && Repair(Escaped, s)[n..] == Repair(Inside, s[n..])
  {
    if s != [] {
      var fixed := Repair(Escaped, s);
      assert fixed[0] == s[0] && fixed[1..] == Repair(Inside, s[1..]);
      HexIsKept(s[1..], 4);
      if s[0] == 'u' && StartsWithHex(s[1..], 4) {
        var tail := s[1..];
        assert tail[4..] == s[5..];
        assert fixed[5..] == fixed[1..][4..];
        assert (tail[..4] + Repair(Inside, tail[4..]))[4..] == Repair(Inside, tail[4..]);
      }
    }
  }

  lemma {:induction false} DecodeRawEscape(c: char, rest: string)
    requires IsRaw(c)
    ensures Decode(false, true, Fixed(Inside, c) + rest) == [Body(c as int)] + Decode(false, true, rest)
  {
    var fixed := Fixed(Inside, c) + rest;
    assert fixed[0] == '\\' && fixed[1..] == [EscapeLetter(c)] + rest && fixed[1..][1..] == rest;
    assert ReadEscape(fixed[1..]) == (Body(c as int), 1);
    assert fixed[2..] == rest;
  }

  /** Reading the repaired text by the standard is reading the text itself leniently. */
  lemma {:induction false} RepairedReadsLeniently(inside: bool, s: string)
    ensures Decode(false, inside, Repair(State(inside, false), s)) == Decode(true, inside, s)
    decreases |s|
  {
    if s != [] {
      if inside && s[0] == '\\' {
        RepairedReadsLeniently(true, s[1 + ReadEscape(s[1..]).1..]);
        EscapeReadsAlike(s);
      } else if inside && IsRaw(s[0]) {
        RepairedReadsLeniently(true, s[1..]);
        DecodeRawEscape(s[0], Repair(Inside, s[1..]));
      } else {
        PlainReadsAlike(inside, s);
      }
    }
  }

  lemma {:induction false} EscapeReadsAlike(s: string)
    requires s != [] && s[0] == '\\'
    requires var after := s[1 + ReadEscape(s[1..]).1..]; Decode(false, true, Repair(Inside, after)) == Decode(true, true, after)
    ensures Decode(false, true, Repair(Inside, s)) == Decode(true, true, s)
  {
    var fixed, n := Repair(Inside, s), ReadEscape(s[1..]).1;
    EscapeIsKept(s[1..]);
    assert fixed[0] == '\\' && fixed[1..] == Repair(Escaped, s[1..]);
    assert fixed[1 + n..] == fixed[1..][n..] && s[1 + n..] == s[1..][n..];
  }

  lemma {:induction false} PlainReadsAlike(inside: bool, s: string)
    requires s != [] && !(inside && (s[0] == '\\' || IsRaw(s[0])))
    ensures Decode(false, inside, Repair(State(inside, false), s)) == Decode(true, inside, s)
    decreases |s|, 0
  {
    var st := State(inside, false);
    var fixed := Repair(st, s);
    assert fixed[0] == s[0] && fixed[1..] == Repair(Next(st, s[0]), s[1..]);
    RepairedReadsLeniently(Next(st, s[0]) == Inside, s[1..]);
  }

  /** A text the standard already accepts is never changed. */
  lemma {:induction false} AcceptedIsUntouched(inside: bool, s: string)
    requires Bad !in Decode(false, inside, s)
    ensures Repair(State(inside, false), s) == s
    decreases |s|
  {
    if s != [] {
      var st := State(inside, false);
      assert s == [s[0]] + s[1..];
      if inside && s[0] == '\\' {
        var (symbol, n) := ReadEscape(s[1..]);
        AcceptedIsUntouched(true, s[1 + n..]);
        EscapeUntouched(s[1..]);
      } else {
        assert Decode(false, inside, s)[0] != Bad;
        AcceptedIsUntouched(Next(st, s[0]) == Inside, s[1..]);
      }
    }
  }

  lemma {:induction false} EscapeUntouched(s: string)
    requires ReadEscape(s).0 != Bad && Repair(Inside, s[ReadEscape(s).1..]) == s[ReadEscape(s).1..]
    ensures Repair(Escaped, s) == s
  {
    EscapeIsKept(s);
    HexIsKept(s[1..], 4);
    assert s == [s[0]] + s[1..];
    if s[0] == 'u' {
      var tail := s[1..];
      assert tail[4..] == s[5..] && tail == tail[..4] + tail[4..];
    }
  }
}
