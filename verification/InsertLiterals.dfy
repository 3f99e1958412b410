// What the VALUES parser reads for each kind of literal: numbers with and
// without a decimal point, escapes in quoted strings, keywords in any letter
// case, and the texts it refuses.
module InsertLiterals {
  import opened Common
  import opened Json
  import opened InsertValues
  import opened InsertRoundTrip
  import opened Text

  // ----- numbers

  // Text that the parser takes for one number: it starts like one and goes on
  // to the next comma, parenthesis or white space.
  predicate NumberText(s: string) {
    s != "" && (IsDigit(s[0]) || s[0] == '-' || s[0] == '+') && forall i :: 0 <= i < |s| ==> s[i] != ',' && s[i] != ')' && !IsSpace(s[i])
  }

  lemma NumberRead(lib: Lib, s: string, rest: string)
    requires NumberText(s) && EndsValue(rest)
    ensures ParseValue(lib, s + rest) == Ok(NumberValue(lib, s), |s|)
  {
    var t := s + rest;
    forall i | 0 <= i < |s| ensures NumberChar(t[i]) {
      assert t[i] == s[i];
    }
    SkipAll(t, 0, |s|, NumberChar);
    assert t[..|s|] == s;
    assert t[0] == s[0];
    assert Skip(t, 0, IsSpace) == 0 && t[0..] == t;
  }

  // A number with a decimal point is the float it denotes; one that overflows
  // is NULL, and what is no float is kept as a string.
  lemma DecimalRead(lib: Lib, s: string, rest: string)
    requires NumberText(s) && '.' in s && EndsValue(rest)
    ensures ParseValue(lib, s + rest) == Ok(
      match lib.parseF64(s)
      case Some(Fin(x)) => Number(Float(Fin(x)))
      case Some(NegZero) => Number(Float(NegZero))
      case Some(_) => Null
      case None => String(s), |s|)
  {
    NumberRead(lib, s, rest);
  }

  // The text without its sign.
  function Unsigned(s: string): string {
    if s != "" && (s[0] == '-' || s[0] == '+') then s[1..] else s
  }

  lemma SignedText(s: string)
    requires Unsigned(s) != "" && AllDigits(Unsigned(s))
    ensures NumberText(s) && '.' !in s
  {
    var digits := Unsigned(s);
    var k := |s| - |digits|;
    forall i | 0 <= i < |s| ensures IsDigit(s[i]) || (i == 0 && (s[0] == '-' || s[0] == '+')) {
      if i >= k { assert s[i] == digits[i - k]; }
    }
  }

  // Digits behind an optional sign are the integer they denote if it has 64
  // bits, and are else kept as a string.
  lemma IntegerRead(lib: Lib, s: string, rest: string)
    requires Unsigned(s) != "" && AllDigits(Unsigned(s)) && EndsValue(rest)
    ensures var m := DigitsValue(Unsigned(s));
      var n := if s[0] == '-' then 0 - m else m as int;
      ParseValue(lib, s + rest) == Ok(if -0x8000_0000_0000_0000 <= n < 0x8000_0000_0000_0000 then Number(Int(n)) else String(s), |s|)
  {
    SignedText(s);
    NumberRead(lib, s, rest);
  }

  // Any other text that starts like a number is kept as a string.
  lemma NoNumberRead(lib: Lib, s: string, rest: string)
    requires NumberText(s) && '.' !in s && EndsValue(rest)
    requires Unsigned(s) == "" || !AllDigits(Unsigned(s))
    ensures ParseValue(lib, s + rest) == Ok(String(s), |s|)
  {
    NumberRead(lib, s, rest);
  }

  // ----- escapes

  // The two characters stand for `c` between quotes.
  predicate Stands(a: char, b: char, c: char) {
    || (a == '\'' && b == '\'' && c == '\'')
    || (a == '\\' && b == 'n' && c == '\n')
    || (a == '\\' && b == 't' && c == '\t')
    || (a == '\\' && b != 'n' && b != 't' && c == b)
  }

  // `body` is some way to write the string `s` between quotes.
  predicate Writes(body: string, s: string)
    decreases |s|
  {
    if s == "" then body == ""
    else
      || (body != "" && body[0] == s[0] && s[0] != '\'' && s[0] != '\\' && Writes(body[1..], s[1..]))
      || (|body| >= 2 && Stands(body[0], body[1], s[0]) && Writes(body[2..], s[1..]))
  }

  lemma BodyHead(t: string, i: nat, body: string, n: nat, rest: string)
    requires 0 < n <= |body| && i <= |t| && t[i..] == body + ("'" + rest)
    ensures i + n < |t| && t[i + n..] == body[n..] + ("'" + rest) && t[i] == body[0] && (|body| > 1 ==> t[i + 1] == body[1])
  {
    assert t[i] == t[i..][0];
    assert |body| > 1 ==> t[i + 1] == t[i..][1];
    assert t[i + n..] == t[i..][n..];
    assert (body + ("'" + rest))[n..] == body[n..] + ("'" + rest);
  }

  lemma {:induction false} WrittenRead(t: string, i: nat, buf: string, body: string, s: string, rest: string)
    requires Writes(body, s) && i <= |t| && t[i..] == body + ("'" + rest) && (rest == "" || rest[0] != '\'')
    ensures QuotedFrom(t, i, buf) == Quoted(buf + s, |t| - |rest|)
    decreases |s|
  {
    if s == "" {
      ClosingQuote(t, i, buf, rest);
      assert buf + s == buf;
    } else if body[0] == s[0] && s[0] != '\'' && s[0] != '\\' && Writes(body[1..], s[1..]) {
      BodyHead(t, i, body, 1, rest);
      WrittenRead(t, i + 1, buf + [s[0]], body[1..], s[1..], rest);
      MoveHead(buf, s);
    } else {
      BodyHead(t, i, body, 2, rest);
      WrittenRead(t, i + 2, buf + [s[0]], body[2..], s[1..], rest);
      MoveHead(buf, s);
    }
  }

  lemma QuotedText(body: string, rest: string)
    ensures var t := "'" + body + "'" + rest;
      && |t| == |body| + 2 + |rest| && t[0] == '\'' && Skip(t, 0, IsSpace) == 0 && t[0..] == t && t[1..] == body + ("'" + rest)
  {
    Reassociate("'", body, "'", rest);
  }

  // Whichever way a string is written, with doubled quotes, backslashes or the
  // escapes for newline and tab, it is read back and used up. A string that is
  // JSON text is taken for the value it denotes.
  lemma EscapesRead(lib: Lib, body: string, s: string, rest: string)
    requires Writes(body, s) && EndsValue(rest)
    ensures ParseValue(lib, "'" + body + "'" + rest) == Ok(if lib.parseJson(s).Some? then lib.parseJson(s).value else String(s), |body| + 2)
  {
    var t := "'" + body + "'" + rest;
    QuotedText(body, rest);
    WrittenRead(t, 1, "", body, s, rest);
    assert "" + s == s;
  }

  // ----- between values

  lemma {:induction false} SkipOne(s: string, pos: nat, p: char -> bool)
    requires pos < |s| && p(s[pos])
    ensures Skip(s, pos, p) == Skip(s, pos + 1, p)
  {
  }

  // Inside a tuple spaces and tabs are skipped, a comma is passed over, and a
  // parenthesis ends it; anything else is a value, and the end of the text an
  // error.
  lemma TupleStepExact(pv: ValueParser, s: string, pos: nat)
    requires Advances(pv) && pos <= |s|
    ensures TupleStep(pv, s, pos) ==
      if pos == |s| then Fail(UnterminatedTuple)
      else if s[pos] == ' ' || s[pos] == '\t' then TupleStep(pv, s, pos + 1)
      else if s[pos] == ')' then Stop(pos + 1)
      else if s[pos] == ',' then Move(pos + 1)
      else match pv(s[pos..]) case Ok(v, used) => Item(v, pos + used) case Err(e) => Fail(e)
  {
    if pos < |s| && IsBlank(s[pos]) { SkipOne(s, pos, IsBlank); }
  }

  // Between tuples spaces, tabs, newlines and commas are skipped; then comes a
  // tuple or the end, and anything else is an error.
  lemma TuplesStepExact(pt: TupleParser, s: string, pos: nat)
    requires AdvancesTuples(pt) && pos <= |s|
    ensures TuplesStep(pt, s, pos) ==
      if pos == |s| then Stop(|s|)
      else if s[pos] in " \t\n," then TuplesStep(pt, s, pos + 1)
      else if s[pos] != '(' then Fail(ExpectedParen)
      else match pt(s[pos..]) case Ok(t, used) => Item(t, pos + used) case Err(e) => Fail(e)
  {
    if pos < |s| && SeparatesTuples(s[pos]) { SkipOne(s, pos, SeparatesTuples); }
  }

  // ----- keywords and errors

  predicate SpelledAs(s: string, word: string) {
    |s| == |word| && forall i :: 0 <= i < |s| ==> (s[i] == word[i] && !('a' <= s[i] <= 'z')) || ('A' <= word[i] <= 'Z' && s[i] as int == word[i] as int + 32)
  }

  lemma SpelledStarts(s: string, word: string, rest: string)
    requires SpelledAs(s, word)
    ensures StartsWithUpper(s + rest, word)
  {
    assert forall i :: 0 <= i < |s| ==> (s + rest)[i] == s[i];
  }

  // The keywords are read in any letter case, whatever follows; the call of
  // NOW must start with a capital letter.
  lemma KeywordRead(lib: Lib, s: string, rest: string)
    ensures SpelledAs(s, "NULL") ==> ParseValue(lib, s + rest) == Ok(Null, 4)
    ensures SpelledAs(s, "TRUE") ==> ParseValue(lib, s + rest) == Ok(Bool(true), 4)
    ensures SpelledAs(s, "FALSE") ==> ParseValue(lib, s + rest) == Ok(Bool(false), 5)
    ensures SpelledAs(s, "NOW()") ==> ParseValue(lib, s + rest) == if s[0] == 'N' then Ok(String(lib.now), 5) else Err(UnexpectedChar('n'))
  {
    var t := s + rest;
    if SpelledAs(s, "NULL") {
      KeywordStart(s, "NULL", rest);
    } else if SpelledAs(s, "TRUE") {
      KeywordStart(s, "TRUE", rest);
    } else if SpelledAs(s, "FALSE") {
      KeywordStart(s, "FALSE", rest);
    } else if SpelledAs(s, "NOW()") {
      KeywordStart(s, "NOW()", rest);
      assert t[1] == s[1];
    }
  }

  lemma KeywordStart(s: string, word: string, rest: string)
    requires SpelledAs(s, word) && word != "" && 'A' <= word[0] <= 'Z'
    ensures var t := s + rest;
      && StartsWithUpper(t, word) && t[0] == s[0] && Skip(t, 0, IsSpace) == 0 && t[0..] == t
  {
    SpelledStarts(s, word, rest);
  }
}
