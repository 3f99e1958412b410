// The bulk loader's string literals, which double quotes and escape nothing
// else, as the VALUES parser reads them.
module LoaderQuoting {
  import opened Common
  import opened Json
  import opened InsertValues
  import opened InsertRoundTrip
  import opened InsertText
  import opened Text

  function Doubled(c: char): string {
    if c == '\'' then "''" else [c]
  }

  // The loader doubles quotes and leaves backslashes as they are.
  function DoubleQuotes(s: string): string {
    if s == "" then "" else Doubled(s[0]) + DoubleQuotes(s[1..])
  }

  function Backslashes(n: nat): string {
    seq(n, _ => '\\')
  }

  lemma {:induction false} QuotedKeeps(t: string, i: nat, buf: string)
    requires i <= |t|
    ensures buf <= QuotedFrom(t, i, buf).buf
    decreases |t| - i
  {
    if i < |t| {
      if t[i] == '\'' {
        if i + 1 < |t| && t[i + 1] == '\'' { QuotedKeeps(t, i + 2, buf + "'"); }
      } else if t[i] == '\\' && i + 1 < |t| {
        QuotedKeeps(t, i + 2, buf + [Unescape(t[i + 1])]);
      } else {
        QuotedKeeps(t, i + 1, buf + [t[i]]);
      }
    }
  }

  // Text without backslashes is escaped the same way in both styles.
  lemma {:induction false} SameEscape(s: string)
    requires '\\' !in s
    ensures DoubleQuotes(s) == EscapeQuoted(s)
  {
    if s != "" { SameEscape(s[1..]); }
  }

  lemma DoubledSplit(s: string, tail: string)
    requires s != ""
    ensures DoubleQuotes(s) + tail == Doubled(s[0]) + (DoubleQuotes(s[1..]) + tail)
  {
    Reassociate("", Doubled(s[0]), DoubleQuotes(s[1..]), tail);
    assert "" + Doubled(s[0]) == Doubled(s[0]);
  }

  lemma DoubledFirst(s: string, tail: string)
    requires tail != "" && tail[0] == '\''
    ensures (DoubleQuotes(s) + tail)[0] == if s == "" then '\'' else s[0]
  {
  }

  // The characters the reader meets at the head of the doubled text.
  lemma DoubledHead(t: string, i: nat, s: string, tail: string)
    requires s != "" && tail != "" && tail[0] == '\''
    requires i <= |t| && t[i..] == DoubleQuotes(s) + tail
    ensures i + 1 < |t| && t[i] == s[0]
    ensures t[i + 1] == if s[0] == '\'' || |s| == 1 then '\'' else s[1]
    ensures var n := |Doubled(s[0])|;
      i + n <= |t| && t[i + n..] == DoubleQuotes(s[1..]) + tail
  {
    DoubledSplit(s, tail);
    DoubledFirst(s[1..], tail);
    HeadOfTwo(t, i, Doubled(s[0]), DoubleQuotes(s[1..]) + tail);
  }

  // The character read first, and where reading goes on.
  lemma ReadOne(t: string, i: nat, buf: string, s: string, tail: string) returns (read: char, n: nat)
    requires s != "" && tail != "" && tail[0] == '\''
    requires i <= |t| && t[i..] == DoubleQuotes(s) + tail
    ensures i + n <= |t| && QuotedFrom(t, i, buf) == QuotedFrom(t, i + n, buf + [read])
    ensures buf + [read] <= QuotedFrom(t, i, buf).buf
    ensures s[0] == '\\' ==> n == 2 && (read == '\\' ==> |s| > 1 && s[1] == '\\')
    ensures s[0] != '\\' ==> read == s[0] && t[i + n..] == DoubleQuotes(s[1..]) + tail
  {
    DoubledHead(t, i, s, tail);
    n := if s[0] == '\'' || s[0] == '\\' then 2 else 1;
    read := if s[0] == '\\' then Unescape(t[i + 1]) else s[0];
    QuotedKeeps(t, i + n, buf + [read]);
  }

  lemma OneShorter(buf: string, j: nat, s: string)
    requires |s| > 1 && s[0] == '\\' && s[1] == '\\'
    ensures buf + Backslashes(j) + s == buf + "\\" + Backslashes(j + 1) + s[2..]
  {
    assert s == "\\" + "\\" + s[2..];
    assert Backslashes(j) + "\\" == "\\" + Backslashes(j);
    assert Backslashes(j + 1) == Backslashes(j) + "\\";
  }

  // ----- the bytes of a quoted text

  lemma {:induction false} DoublePlain(e: string, t: string)
    requires Plain(e)
    ensures DoubleQuotes(e + t) == e + DoubleQuotes(t)
  {
    if e == "" {
      assert e + t == t;
    } else {
      DoublePlain(e[1..], t);
      assert (e + t)[1..] == e[1..] + t;
      Regroup([e[0]], e[1..], DoubleQuotes(t));
      assert [e[0]] + e[1..] == e;
    }
  }

  lemma DoubleHead(c: char, t: string)
    ensures DoubleQuotes(Encode(c) + t) == Utf8(Doubled(c)) + DoubleQuotes(t)
  {
    if Ascii(c) {
      Utf8Exact(Doubled(c));
      assert ([c] + t)[1..] == t;
    } else {
      assert [c][1..] == "";
      assert Utf8([c]) == Encode(c) + "" == Encode(c);
      DoublePlain(Encode(c), t);
    }
  }

  lemma {:induction false} DoubleUtf8(s: string)
    ensures Utf8(DoubleQuotes(s)) == DoubleQuotes(Utf8(s))
  {
    if s != "" {
      DoubleUtf8(s[1..]);
      DoubleHead(s[0], Utf8(s[1..]));
      Utf8Append(Doubled(s[0]), DoubleQuotes(s[1..]));
    }
  }

  // ----- reading that text back

  // The reader copies bytes that are neither quote nor backslash.
  lemma {:induction false} ReadPlain(t: string, i: nat, buf: string, e: string, s: string, tail: string)
    requires Plain(e) && tail != "" && tail[0] == '\''
    requires i <= |t| && t[i..] == DoubleQuotes(e + s) + tail
    ensures i + |e| <= |t| && t[i + |e|..] == DoubleQuotes(s) + tail
    ensures QuotedFrom(t, i, buf) == QuotedFrom(t, i + |e|, buf + e)
    decreases |e|
  {
    if e == "" {
      assert e + s == s && buf + e == buf;
    } else {
      assert (e + s)[1..] == e[1..] + s;
      DoubledHead(t, i, e + s, tail);
      ReadPlain(t, i + 1, buf + [e[0]], e[1..], s, tail);
      MoveHead(buf, e);
    }
  }

  // A character that is not ASCII is read as several others.
  lemma ReadWide(t: string, i: nat, buf: string, s: string, tail: string)
    requires s != "" && !Ascii(s[0]) && tail != "" && tail[0] == '\''
    requires i <= |t| && t[i..] == DoubleQuotes(Utf8(s)) + tail
    ensures var n := |Encode(s[0])|;
      && i + n <= |t| && t[i + n..] == DoubleQuotes(Utf8(s[1..])) + tail
      && QuotedFrom(t, i, buf) == QuotedFrom(t, i + n, buf + Encode(s[0]))
  {
    ReadPlain(t, i, buf, Encode(s[0]), Utf8(s[1..]), tail);
  }

  lemma Differs(got: string, buf: string, ahead: string, s: string)
    requires ahead != "" && buf + ahead <= got && (s == "" || s[0] != ahead[0])
    ensures got != buf + s
  {
    assert got[|buf|] == (buf + ahead)[|buf|] == ahead[0];
  }

  lemma AheadMoves(buf: string, ahead: string, e: string)
    requires ahead != "" && NoneAscii(ahead) && NoneAscii(e) && e != ""
    ensures buf + ahead + e == buf + [ahead[0]] + (ahead[1..] + e) && NoneAscii(ahead[1..] + e) && ahead[1..] + e != ""
  {
    MoveHead(buf, ahead);
    Regroup(buf + [ahead[0]], ahead[1..], e);
  }

  // Ahead by bytes that are not ASCII, the reader stays ahead: the text still to
  // come has to repeat those bytes, each of which adds more.
  lemma {:induction false} StaysAhead(t: string, i: nat, buf: string, ahead: string, s: string, rest: string)
    requires ahead != "" && NoneAscii(ahead)
    requires i <= |t| && t[i..] == DoubleQuotes(Utf8(s)) + ("'" + rest)
    ensures QuotedFrom(t, i, buf + ahead).buf != buf + s
    decreases |s|
  {
    if s != "" && s[0] == ahead[0] {
      var e := Encode(s[0]);
      ReadWide(t, i, buf + ahead, s, "'" + rest);
      AheadMoves(buf, ahead, e);
      StaysAhead(t, i + |e|, buf + [ahead[0]], ahead[1..] + e, s[1..], rest);
      MoveHead(buf, s);
    } else {
      QuotedKeeps(t, i, buf + ahead);
      Differs(QuotedFrom(t, i, buf + ahead).buf, buf, ahead, s);
    }
  }

  lemma ReadAhead(t: string, i: nat, buf: string, e: string, s: string, rest: string)
    requires |e| >= 2 && NoneAscii(e) && s != ""
    requires i <= |t| && t[i..] == DoubleQuotes(Utf8(s[1..])) + ("'" + rest)
    ensures QuotedFrom(t, i, buf + e).buf != buf + s
  {
    if s[0] == e[0] {
      MoveHead(buf, e);
      StaysAhead(t, i, buf + [e[0]], e[1..], s[1..], rest);
      MoveHead(buf, s);
    } else {
      QuotedKeeps(t, i, buf + e);
      Differs(QuotedFrom(t, i, buf + e).buf, buf, e, s);
    }
  }

  // Met in step, a character that is not ASCII puts the reader ahead for good.
  lemma WideHead(t: string, i: nat, buf: string, s: string, rest: string)
    requires s != "" && !Ascii(s[0])
    requires i <= |t| && t[i..] == DoubleQuotes(Utf8(s)) + ("'" + rest)
    ensures QuotedFrom(t, i, buf).buf != buf + s
  {
    ReadWide(t, i, buf, s, "'" + rest);
    ReadAhead(t, i + |Encode(s[0])|, buf, Encode(s[0]), s, rest);
  }

  lemma BytesAreNot(t: string, i: nat, buf: string, e: string, s: string)
    requires i <= |t| && e != "" && NoneAscii(e) && s != "" && s[0] == '\\'
    ensures QuotedFrom(t, i, buf + e).buf != buf + s
  {
    QuotedKeeps(t, i, buf + e);
    Differs(QuotedFrom(t, i, buf + e).buf, buf, e, s);
  }

  // Met behind some backslashes, it is not one of them.
  lemma WideBehind(t: string, i: nat, buf: string, s: string, j: nat, rest: string)
    requires s != "" && !Ascii(s[0]) && j > 0
    requires i <= |t| && t[i..] == DoubleQuotes(Utf8(s)) + ("'" + rest)
    ensures QuotedFrom(t, i, buf).buf != buf + Backslashes(j) + s
  {
    ReadWide(t, i, buf, s, "'" + rest);
    BytesAreNot(t, i + |Encode(s[0])|, buf, Encode(s[0]), Backslashes(j) + s);
    Regroup(buf, Backslashes(j), s);
  }

  // A pair of backslashes is the only text read as a backslash.
  lemma ReadAscii(t: string, i: nat, buf: string, s: string, rest: string) returns (read: char, n: nat)
    requires s != "" && Ascii(s[0]) && i <= |t| && t[i..] == DoubleQuotes(Utf8(s)) + ("'" + rest)
    ensures i + n <= |t| && QuotedFrom(t, i, buf) == QuotedFrom(t, i + n, buf + [read])
    ensures buf + [read] <= QuotedFrom(t, i, buf).buf
    ensures read == '\\' ==> |s| > 1 && s[0] == s[1] == '\\' && t[i + n..] == DoubleQuotes(Utf8(s[2..])) + ("'" + rest)
    ensures s[0] != '\\' ==> read == s[0] && t[i + n..] == DoubleQuotes(Utf8(s[1..])) + ("'" + rest)
  {
    var bytes := Utf8(s);
    assert bytes[0] == s[0] && bytes[1..] == Utf8(s[1..]);
    read, n := ReadOne(t, i, buf, bytes, "'" + rest);
    if read == '\\' {
      SecondBackslash(s);
      DoubledHead(t, i, bytes, "'" + rest);
      DoubledHead(t, i + 1, bytes[1..], "'" + rest);
    }
  }

  lemma SecondBackslash(s: string)
    requires s != "" && Ascii(s[0]) && |Utf8(s)| > 1 && Utf8(s)[1] == '\\'
    ensures |s| > 1 && s[1] == '\\' && Utf8(s)[1..][1..] == Utf8(s[2..])
  {
    assert Utf8(s)[1..] == Utf8(s[1..]);
    assert Utf8(s[1..]) == Encode(s[1]) + Utf8(s[1..][1..]);
    assert s[1..][1..] == s[2..];
  }

  predicate Troubled(s: string) {
    '\\' in s || !AllAscii(s)
  }

  lemma TroubledLater(s: string)
    requires s != "" && Troubled(s) && Ascii(s[0]) && s[0] != '\\'
    ensures Troubled(s[1..])
  {
    if AllAscii(s[1..]) { assert forall i :: 1 <= i < |s| ==> s[i] == s[1..][i - 1]; }
  }

  lemma InStep(buf: string, s: string)
    ensures buf + Backslashes(0) + s == buf + s
    ensures s != "" ==> buf + s == buf + [s[0]] + Backslashes(0) + s[1..]
  {
    if s != "" { MoveHead(buf, s); }
    assert buf + Backslashes(0) == buf;
    assert s != "" ==> buf + [s[0]] + Backslashes(0) == buf + [s[0]];
  }

  lemma NotBehind(got: string, buf: string, read: char, j: nat, s: string)
    requires buf + [read] <= got && read != '\\' && (j > 0 || (s != "" && s[0] == '\\'))
    ensures got != buf + Backslashes(j) + s
  {
    assert (Backslashes(j) + s)[0] == '\\';
    Differs(got, buf, [read], Backslashes(j) + s);
    Regroup(buf, Backslashes(j), s);
  }

  // Once a backslash or a character that is not ASCII has been met, the text
  // read is never the text written. Each pair of backslashes is read as one,
  // which leaves the reader `j` short.
  lemma {:induction false} Misread(t: string, i: nat, buf: string, s: string, j: nat, rest: string)
    requires i <= |t| && t[i..] == DoubleQuotes(Utf8(s)) + ("'" + rest)
    requires rest == "" || rest[0] != '\''
    requires j > 0 || Troubled(s)
    ensures QuotedFrom(t, i, buf).buf != buf + Backslashes(j) + s
    decreases |s|
  {
    if s == "" {
      ClosingQuote(t, i, buf, rest);
    } else if !Ascii(s[0]) {
      if j == 0 {
        WideHead(t, i, buf, s, rest);
        InStep(buf, s);
      } else {
        WideBehind(t, i, buf, s, j, rest);
      }
    } else {
      var read, n := ReadAscii(t, i, buf, s, rest);
      if read == '\\' {
        Misread(t, i + n, buf + [read], s[2..], j + 1, rest);
        OneShorter(buf, j, s);
      } else if j == 0 && s[0] != '\\' {
        TroubledLater(s);
        Misread(t, i + n, buf + [read], s[1..], 0, rest);
        InStep(buf, s);
      } else {
        NotBehind(QuotedFrom(t, i, buf).buf, buf, read, j, s);
      }
    }
  }

  // The literal the loader writes for a string, and its bytes.
  function LoaderLiteral(s: string): string {
    Utf8("'" + DoubleQuotes(s) + "'")
  }

  lemma Unquoted(body: string, rest: string)
    ensures ("'" + body + "'" + rest)[1..] == body + ("'" + rest)
  {
  }

  lemma LiteralText(s: string, rest: string)
    ensures var t := LoaderLiteral(s) + rest;
      t[0] == '\'' && t[1..] == DoubleQuotes(Utf8(s)) + ("'" + rest) && LoaderLiteral(s) == "'" + DoubleQuotes(Utf8(s)) + "'"
  {
    QuotedUtf8(DoubleQuotes(s));
    DoubleUtf8(s);
    Unquoted(DoubleQuotes(Utf8(s)), rest);
  }

  // The text between the quotes is read back exactly when it is ASCII and has no
  // backslash.
  lemma LoaderEscapeExact(s: string, rest: string)
    requires rest == "" || rest[0] != '\''
    ensures QuotedFrom(LoaderLiteral(s) + rest, 1, "") == Quoted(s, |LoaderLiteral(s)|) <==> AllAscii(s) && '\\' !in s
  {
    var t := LoaderLiteral(s) + rest;
    LiteralText(s, rest);
    if AllAscii(s) && '\\' !in s {
      Utf8Exact(s);
      SameEscape(s);
      QuotedRoundTrip(t, 1, "", s, rest);
      assert "" + s == s;
    } else {
      Misread(t, 1, "", s, 0, rest);
      assert "" + Backslashes(0) + s == s;
    }
  }

  // ----- as a value

  // Twice the length, a quote counting for one.
  function Weight(s: string): nat {
    if s == "" then 0 else (if s[0] == '\'' then 1 else 2) + Weight(s[1..])
  }

  lemma {:induction false} WeightAppend(s: string, t: string)
    ensures Weight(s + t) == Weight(s) + Weight(t)
  {
    if s == "" {
      assert s + t == t;
    } else {
      WeightAppend(s[1..], t);
      assert (s + t)[1..] == s[1..] + t;
    }
  }

  lemma {:induction false} DoubledCounts(s: string)
    ensures Weight(DoubleQuotes(s)) == 2 * |s| && NonAscii(DoubleQuotes(s)) == NonAscii(s)
  {
    if s != "" {
      DoubledCounts(s[1..]);
      WeightAppend(Doubled(s[0]), DoubleQuotes(s[1..]));
      NonAsciiAppend(Doubled(s[0]), DoubleQuotes(s[1..]));
      PieceCounts(Doubled(s[0]));
    }
  }

  lemma PieceCounts(e: string)
    requires |e| <= 2
    ensures |e| == 1 ==> Weight(e) == (if e[0] == '\'' then 1 else 2) && NonAscii(e) == if Ascii(e[0]) then 0 else 1
    ensures |e| == 2 ==> Weight(e) == (if e[0] == '\'' then 1 else 2) + (if e[1] == '\'' then 1 else 2)
    ensures |e| == 2 ==> NonAscii(e) == (if Ascii(e[0]) then 0 else 1) + if Ascii(e[1]) then 0 else 1
  {
    if |e| > 0 { assert e[1..] == if |e| == 2 then [e[1]] else ""; }
    if |e| == 2 { assert e[1..][1..] == ""; }
  }

  // One step of the reader takes a piece and pushes a character for it.
  lemma PushCounts(buf: string, c: char, piece: string)
    requires 1 <= |piece| <= 2 && (Ascii(c) <==> Ascii(piece[|piece| - 1])) && (|piece| == 2 ==> Ascii(piece[0]))
    requires Weight(piece) >= 2
    ensures 2 * |buf + [c]| <= 2 * |buf| + Weight(piece) && NonAscii(buf + [c]) == NonAscii(buf) + NonAscii(piece)
  {
    NonAsciiAppend(buf, [c]);
    PieceCounts([c]);
    PieceCounts(piece);
  }

  lemma SplitCounts(t: string, i: nat, n: nat, e: nat)
    requires i <= i + n <= e <= |t|
    ensures Weight(t[i..e]) == Weight(t[i..i + n]) + Weight(t[i + n..e]) && NonAscii(t[i..e]) == NonAscii(t[i..i + n]) + NonAscii(t[i + n..e])
  {
    assert t[i..e] == t[i..i + n] + t[i + n..e];
    WeightAppend(t[i..i + n], t[i + n..e]);
    NonAsciiAppend(t[i..i + n], t[i + n..e]);
  }

  // Whatever the reader makes of a text, it keeps every character outside ASCII
  // and pushes no more than the weight allows.
  lemma {:induction false} QuotedCounts(t: string, i: nat, buf: string)
    requires i <= |t|
    ensures var q := QuotedFrom(t, i, buf);
      2 * |q.buf| <= 2 * |buf| + Weight(t[i..q.end]) && NonAscii(q.buf) == NonAscii(buf) + NonAscii(t[i..q.end])
    decreases |t| - i
  {
    if i < |t| {
      if t[i] == '\'' {
        if i + 1 < |t| && t[i + 1] == '\'' {
          CountsStep(t, i, 2, buf, '\'');
        } else {
          PieceCounts(t[i..i + 1]);
        }
      } else if t[i] == '\\' && i + 1 < |t| {
        CountsStep(t, i, 2, buf, Unescape(t[i + 1]));
      } else {
        CountsStep(t, i, 1, buf, t[i]);
      }
    }
  }

  lemma {:induction false} CountsStep(t: string, i: nat, n: nat, buf: string, c: char)
    requires 1 <= n <= 2 && i + n <= |t| && QuotedFrom(t, i, buf) == QuotedFrom(t, i + n, buf + [c])
    requires (Ascii(c) <==> Ascii(t[i + n - 1])) && (n == 2 ==> Ascii(t[i])) && (n == 1 ==> t[i] != '\'')
    ensures var q := QuotedFrom(t, i, buf);
      2 * |q.buf| <= 2 * |buf| + Weight(t[i..q.end]) && NonAscii(q.buf) == NonAscii(buf) + NonAscii(t[i..q.end])
    decreases |t| - i, 0
  {
    var piece, q := t[i..i + n], QuotedFrom(t, i, buf);
    PieceCounts(piece);
    PushCounts(buf, c, piece);
    QuotedCounts(t, i + n, buf + [c]);
    SplitCounts(t, i, n, q.end);
  }

  // If the whole literal is used, the text read is no longer than the bytes
  // written and has their characters outside ASCII.
  lemma LiteralCounts(s: string, rest: string)
    ensures var q := QuotedFrom(LoaderLiteral(s) + rest, 1, "");
      q.end == |LoaderLiteral(s)| ==> |q.buf| <= |Utf8(s)| && NonAscii(q.buf) == NonAscii(Utf8(s))
  {
    var t, body := LoaderLiteral(s) + rest, DoubleQuotes(Utf8(s));
    LiteralText(s, rest);
    QuotedCounts(t, 1, "");
    if QuotedFrom(t, 1, "").end == |LoaderLiteral(s)| {
      assert t[1..|LoaderLiteral(s)|] == body + "'";
      WeightAppend(body, "'");
      NonAsciiAppend(body, "'");
      PieceCounts("'");
      DoubledCounts(Utf8(s));
    }
  }

  lemma QuotedValue(lib: Lib, t: string)
    requires t != "" && t[0] == '\''
    ensures ParseValue(lib, t) == Ok(StringValue(lib, QuotedFrom(t, 1, "").buf), QuotedFrom(t, 1, "").end)
  {
    assert Skip(t, 0, IsSpace) == 0 && t[0..] == t;
  }

  // No literal is read as the JSON text of its own string.
  lemma NotItsJson(lib: Lib, s: string, rest: string)
    requires lib.Lawful()
    ensures var q := QuotedFrom(LoaderLiteral(s) + rest, 1, "");
      q.end == |LoaderLiteral(s)| ==> lib.parseJson(q.buf) != Some(String(s))
  {
    LiteralCounts(s, rest);
    Utf8Spreads(s);
    NoneAreAscii(s);
    Utf8Exact(s);
  }

  // A string the loader writes comes back exactly when it is ASCII, has no
  // backslash and is no JSON text.
  lemma LoaderExact(lib: Lib, s: string, rest: string)
    requires lib.Lawful() && (rest == "" || rest[0] != '\'')
    ensures ParseValue(lib, LoaderLiteral(s) + rest) == Ok(String(s), |LoaderLiteral(s)|) <==>
            AllAscii(s) && '\\' !in s && lib.parseJson(s).None?
  {
    LiteralText(s, rest);
    QuotedValue(lib, LoaderLiteral(s) + rest);
    LoaderEscapeExact(s, rest);
    NotItsJson(lib, s, rest);
  }

  // An ASCII string without backslashes that is JSON text comes back as the
  // value it denotes.
  lemma LoaderJson(lib: Lib, s: string, rest: string)
    requires AllAscii(s) && '\\' !in s && lib.parseJson(s).Some? && (rest == "" || rest[0] != '\'')
    ensures ParseValue(lib, LoaderLiteral(s) + rest) == Ok(lib.parseJson(s).value, |LoaderLiteral(s)|)
  {
    LiteralText(s, rest);
    QuotedValue(lib, LoaderLiteral(s) + rest);
    LoaderEscapeExact(s, rest);
  }
}
