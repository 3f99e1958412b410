// Rewriting a column name as a whole word. The text is a sequence of bytes,
// each taken for a character, as the rewriter does.
module ColumnRewrite {
  import opened Common
  import opened Text

  // What is rewritten to what, and which characters make up words.
  datatype Rule = Rule(from: string, to: string, word: char -> bool) {
    predicate AsciiNames() {
      AllAscii(from) && AllAscii(to)
    }

    // A non-empty word is replaced by a different word.
    ghost predicate Lawful() {
      && from != "" && to != "" && from != to
      && (forall i :: 0 <= i < |from| ==> word(from[i]))
      && (forall i :: 0 <= i < |to| ==> word(to[i]))
    }
  }

  // ----- the rewriter

  predicate StartsAt(text: string, i: nat, from: string)
    requires i <= |text|
  {
    i + |from| <= |text| && text[i..i + |from|] == from
  }

  predicate WholeWordAt(rule: Rule, text: string, i: nat)
    requires i <= |text|
  {
    && StartsAt(text, i, rule.from)
    && (i == 0 || !rule.word(text[i - 1]))
    && (i + |rule.from| >= |text| || !rule.word(text[i + |rule.from|]))
  }

  function ReplaceFrom(rule: Rule, text: string, i: nat): string
    requires i <= |text| && rule.from != ""
    decreases |text| - i
  {
    if i >= |text| then ""
    else if WholeWordAt(rule, text, i) then rule.to + ReplaceFrom(rule, text, i + |rule.from|)
    else [text[i]] + ReplaceFrom(rule, text, i + 1)
  }

  // What one round of the loop pushes, and where it goes on.
  lemma ReplaceStep(rule: Rule, text: string, i: nat, result: string)
    requires rule.from != "" && i < |text|
    ensures WholeWordAt(rule, text, i) ==>
      result + ReplaceFrom(rule, text, i) == (result + rule.to) + ReplaceFrom(rule, text, i + |rule.from|)
    ensures !WholeWordAt(rule, text, i) ==>
      result + ReplaceFrom(rule, text, i) == (result + [text[i]]) + ReplaceFrom(rule, text, i + 1)
  {
    if WholeWordAt(rule, text, i) {
      Regroup(result, rule.to, ReplaceFrom(rule, text, i + |rule.from|));
    } else {
      Regroup(result, [text[i]], ReplaceFrom(rule, text, i + 1));
    }
  }

  method ReplaceWordBounded(rule: Rule, text: string) returns (result: string)
    requires rule.from != ""
    ensures result == ReplaceFrom(rule, text, 0)
  {
    result := "";
    var i := 0;
    while i < |text|
      invariant 0 <= i <= |text|
      invariant ReplaceFrom(rule, text, 0) == result + ReplaceFrom(rule, text, i)
    {
      ReplaceStep(rule, text, i, result);
      if WholeWordAt(rule, text, i) {
        result := result + rule.to;
        i := i + |rule.from|;
        continue;
      }
      result := result + [text[i]];
      i := i + 1;
    }
    assert result + "" == result;
  }

  // ----- runs: the text cut wherever words start or end

  function Join(runs: seq<string>): string {
    if runs == [] then "" else runs[0] + Join(runs[1..])
  }

  ghost predicate Uniform(rule: Rule, run: string) {
    run != "" && forall i :: 0 <= i < |run| ==> rule.word(run[i]) == rule.word(run[0])
  }

  // Non-empty runs of one kind, the kinds alternating.
  ghost predicate IsRuns(rule: Rule, runs: seq<string>) {
    && (forall k :: 0 <= k < |runs| ==> Uniform(rule, runs[k]))
    && (forall k :: 0 < k < |runs| ==> rule.word(runs[k][0]) != rule.word(runs[k - 1][0]))
  }

  function Runs(rule: Rule, text: string): seq<string> {
    if text == "" then []
    else
      Prepend(rule, text[0], Runs(rule, text[1..]))
  }

  // One more character in front joins the first run or makes one of its own.
  function Prepend(rule: Rule, c: char, rest: seq<string>): seq<string> {
    if rest == [] || rest[0] == "" || rule.word(rest[0][0]) != rule.word(c) then [[c]] + rest
    else [[c] + rest[0]] + rest[1..]
  }

  lemma MoreRuns(rule: Rule, c: char, rest: seq<string>)
    requires IsRuns(rule, rest)
    ensures IsRuns(rule, Prepend(rule, c, rest)) && Join(Prepend(rule, c, rest)) == [c] + Join(rest)
  {
    var runs := Prepend(rule, c, rest);
    if rest == [] || rule.word(rest[0][0]) != rule.word(c) {
      assert runs[1..] == rest;
      forall k | 0 < k < |runs| ensures rule.word(runs[k][0]) != rule.word(runs[k - 1][0]) {
        if k > 1 { assert rule.word(rest[k - 1][0]) != rule.word(rest[k - 2][0]); }
      }
    } else {
      assert Uniform(rule, rest[0]) && runs[1..] == rest[1..];
      forall k | 0 < k < |runs| ensures rule.word(runs[k][0]) != rule.word(runs[k - 1][0]) {
        assert rule.word(rest[k][0]) != rule.word(rest[k - 1][0]);
      }
    }
  }

  // The runs of a text are maximal and make up the text.
  lemma {:induction false} RunsAreRuns(rule: Rule, text: string)
    ensures IsRuns(rule, Runs(rule, text)) && Join(Runs(rule, text)) == text
  {
    if text != "" {
      RunsAreRuns(rule, text[1..]);
      MoreRuns(rule, text[0], Runs(rule, text[1..]));
      assert text == [text[0]] + text[1..];
    }
  }

  function MapRun(rule: Rule, run: string): string {
    if run == rule.from then rule.to else run
  }

  function MapRuns(rule: Rule, runs: seq<string>): (r: seq<string>)
    ensures |r| == |runs| && forall k :: 0 <= k < |runs| ==> r[k] == MapRun(rule, runs[k])
  {
    seq(|runs|, k requires 0 <= k < |runs| => MapRun(rule, runs[k]))
  }

  lemma JoinMapped(rule: Rule, runs: seq<string>)
    requires runs != []
    ensures Join(MapRuns(rule, runs)) == MapRun(rule, runs[0]) + Join(MapRuns(rule, runs[1..]))
  {
    assert MapRuns(rule, runs)[1..] == MapRuns(rule, runs[1..]);
  }

  // ----- one run

  lemma {:induction false} CopyRun(rule: Rule, text: string, i: nat, e: nat)
    requires rule.from != "" && i <= e <= |text| && forall k :: i <= k < e ==> !WholeWordAt(rule, text, k)
    ensures ReplaceFrom(rule, text, i) == text[i..e] + ReplaceFrom(rule, text, e)
    decreases e - i
  {
    if i < e {
      CopyRun(rule, text, i + 1, e);
      assert text[i..e] == [text[i]] + text[i + 1..e];
      Regroup([text[i]], text[i + 1..e], ReplaceFrom(rule, text, e));
    } else {
      assert text[i..e] == "";
    }
  }

  // A stretch that is a maximal run of the text.
  ghost predicate RunAt(rule: Rule, text: string, i: nat, e: nat) {
    && i < e <= |text|
    && (forall k :: i <= k < e ==> rule.word(text[k]) == rule.word(text[i]))
    && (i > 0 ==> rule.word(text[i - 1]) != rule.word(text[i]))
    && (e < |text| ==> rule.word(text[e]) != rule.word(text[i]))
  }

  // A whole word is a run, and a run's only whole word is itself.
  lemma WholeWordIsRun(rule: Rule, text: string, i: nat, e: nat, k: nat)
    requires rule.Lawful() && RunAt(rule, text, i, e) && i <= k < e
    ensures WholeWordAt(rule, text, k) <==> k == i && text[i..e] == rule.from
  {
    var n := |rule.from|;
    if StartsAt(text, k, rule.from) {
      forall j | k <= j < k + n ensures rule.word(text[j]) {
        assert text[j] == text[k..k + n][j - k];
      }
    }
    if WholeWordAt(rule, text, k) {
      assert rule.word(text[k]);
      assert k == i && k + n == e;
    }
    if k == i && text[i..e] == rule.from {
      assert e == i + n && rule.word(text[i]);
    }
  }

  lemma ReplaceRun(rule: Rule, text: string, i: nat, e: nat)
    requires rule.Lawful() && RunAt(rule, text, i, e)
    ensures ReplaceFrom(rule, text, i) == MapRun(rule, text[i..e]) + ReplaceFrom(rule, text, e)
  {
    if text[i..e] == rule.from {
      WholeWordIsRun(rule, text, i, e, i);
    } else {
      forall k | i <= k < e ensures !WholeWordAt(rule, text, k) {
        WholeWordIsRun(rule, text, i, e, k);
      }
      CopyRun(rule, text, i, e);
    }
  }

  // ----- all runs

  lemma FirstRun(rule: Rule, text: string, i: nat, runs: seq<string>)
    requires IsRuns(rule, runs) && runs != [] && i <= |text| && text[i..] == Join(runs)
    requires i > 0 ==> rule.word(text[i - 1]) != rule.word(runs[0][0])
    ensures var e := i + |runs[0]|;
      RunAt(rule, text, i, e) && text[i..e] == runs[0] && text[e..] == Join(runs[1..])
    ensures IsRuns(rule, runs[1..])
    ensures |runs| > 1 ==> rule.word(text[i + |runs[0]| - 1]) != rule.word(runs[1][0])
  {
    var run, more, e := runs[0], Join(runs[1..]), i + |runs[0]|;
    assert Uniform(rule, run);
    assert text[i..] == run + more;
    assert text[i..e] == text[i..][..|run|] == run;
    assert text[e..] == text[i..][|run|..] == more;
    forall k | i <= k < e ensures text[k] == run[k - i] {
      assert text[k] == text[i..][k - i];
    }
    if |runs| > 1 {
      assert Uniform(rule, runs[1]);
      assert text[e] == text[e..][0] == runs[1][0];
    } else {
      assert more == "";
    }
  }

  // What is written from each position on: run by run, each run mapped.
  ghost predicate MapsRuns(rule: Rule, text: string, out: nat -> string) {
    && out(|text|) == ""
    && forall i: nat, e: nat {:trigger RunAt(rule, text, i, e)} :: RunAt(rule, text, i, e) ==> out(i) == MapRun(rule, text[i..e]) + out(e)
  }

  lemma {:induction false} MapsAllRuns(rule: Rule, text: string, out: nat -> string, i: nat, runs: seq<string>)
    requires MapsRuns(rule, text, out) && IsRuns(rule, runs) && i <= |text| && text[i..] == Join(runs)
    requires i > 0 && runs != [] ==> rule.word(text[i - 1]) != rule.word(runs[0][0])
    ensures out(i) == Join(MapRuns(rule, runs))
    decreases |runs|
  {
    if runs != [] {
      FirstRun(rule, text, i, runs);
      MapsAllRuns(rule, text, out, i + |runs[0]|, runs[1..]);
      JoinMapped(rule, runs);
    }
  }

  function WrittenFrom(rule: Rule, text: string): nat -> string
    requires rule.from != ""
  {
    (i: nat) => if i <= |text| then ReplaceFrom(rule, text, i) else ""
  }

  lemma WrittenMapsRuns(rule: Rule, text: string)
    requires rule.Lawful()
    ensures MapsRuns(rule, text, WrittenFrom(rule, text))
  {
    forall i: nat, e: nat | RunAt(rule, text, i, e)
      ensures WrittenFrom(rule, text)(i) == MapRun(rule, text[i..e]) + WrittenFrom(rule, text)(e)
    {
      ReplaceRun(rule, text, i, e);
    }
  }

  lemma ReplaceRuns(rule: Rule, text: string, runs: seq<string>)
    requires rule.Lawful() && IsRuns(rule, runs) && text == Join(runs)
    ensures ReplaceFrom(rule, text, 0) == Join(MapRuns(rule, runs))
  {
    assert text[0..] == text;
    WrittenMapsRuns(rule, text);
    MapsAllRuns(rule, text, WrittenFrom(rule, text), 0, runs);
    assert WrittenFrom(rule, text)(0) == ReplaceFrom(rule, text, 0);
  }

  // The rewriter maps the text's maximal runs and leaves everything else alone.
  lemma ReplaceIsMapRuns(rule: Rule, text: string)
    requires rule.Lawful()
    ensures ReplaceFrom(rule, text, 0) == Join(MapRuns(rule, Runs(rule, text)))
  {
    RunsAreRuns(rule, text);
    ReplaceRuns(rule, text, Runs(rule, text));
  }

  lemma MappedAreRuns(rule: Rule, runs: seq<string>)
    requires rule.Lawful() && IsRuns(rule, runs)
    ensures IsRuns(rule, MapRuns(rule, runs))
  {
    var mapped := MapRuns(rule, runs);
    forall k | 0 <= k < |runs| ensures Uniform(rule, mapped[k]) && rule.word(mapped[k][0]) == rule.word(runs[k][0]) {
      assert Uniform(rule, runs[k]);
    }
    forall k | 0 < k < |mapped| ensures rule.word(mapped[k][0]) != rule.word(mapped[k - 1][0]) {
      assert rule.word(runs[k][0]) != rule.word(runs[k - 1][0]);
      assert Uniform(rule, mapped[k - 1]);
    }
  }

  // On the characters pushed, rewriting twice is rewriting once.
  lemma ReplaceIsIdempotent(rule: Rule, text: string)
    requires rule.Lawful()
    ensures var once := ReplaceFrom(rule, text, 0); ReplaceFrom(rule, once, 0) == once
  {
    var mapped := MapRuns(rule, Runs(rule, text));
    RunsAreRuns(rule, text);
    ReplaceIsMapRuns(rule, text);
    MappedAreRuns(rule, Runs(rule, text));
    var once := Join(mapped);
    ReplaceRuns(rule, once, mapped);
    assert MapRuns(rule, mapped) == mapped;
  }

  lemma {:induction false} NoWordAmongRuns(rule: Rule, text: string, i: nat, runs: seq<string>, k: nat)
    requires rule.Lawful() && IsRuns(rule, runs) && i <= k < |text| && text[i..] == Join(runs) && rule.from !in runs
    requires i > 0 && runs != [] ==> rule.word(text[i - 1]) != rule.word(runs[0][0])
    ensures !WholeWordAt(rule, text, k)
    decreases |runs|
  {
    assert runs != [];
    var e := i + |runs[0]|;
    FirstRun(rule, text, i, runs);
    if k < e {
      WholeWordIsRun(rule, text, i, e, k);
      assert runs[0] in runs;
    } else {
      NoWordAmongRuns(rule, text, e, runs[1..], k);
    }
  }

  // No whole word is left among the characters pushed.
  lemma NoWordRemains(rule: Rule, text: string, k: nat)
    requires rule.Lawful() && k < |ReplaceFrom(rule, text, 0)|
    ensures !WholeWordAt(rule, ReplaceFrom(rule, text, 0), k)
  {
    var mapped, once := MapRuns(rule, Runs(rule, text)), ReplaceFrom(rule, text, 0);
    RunsAreRuns(rule, text);
    ReplaceIsMapRuns(rule, text);
    MappedAreRuns(rule, Runs(rule, text));
    assert once[0..] == once;
    NoWordAmongRuns(rule, once, 0, mapped, k);
  }

  // ----- what is stored

  // The result is a string, so every byte that was taken for a character is
  // stored in UTF-8.
  function Rewritten(rule: Rule, text: string): string
    requires rule.from != ""
  {
    Utf8(ReplaceFrom(rule, text, 0))
  }

  lemma {:induction false} NonAsciiKept(rule: Rule, runs: seq<string>)
    requires rule.AsciiNames()
    ensures NonAscii(Join(MapRuns(rule, runs))) == NonAscii(Join(runs))
  {
    if runs != [] {
      NonAsciiKept(rule, runs[1..]);
      NoneAreAscii(rule.from);
      NoneAreAscii(rule.to);
      JoinMapped(rule, runs);
      SameCount(MapRun(rule, runs[0]), runs[0], Join(MapRuns(rule, runs[1..])), Join(runs[1..]));
    }
  }

  lemma SameCount(a: string, b: string, s: string, t: string)
    requires NonAscii(a) == NonAscii(b) && NonAscii(s) == NonAscii(t)
    ensures NonAscii(a + s) == NonAscii(b + t)
  {
    NonAsciiAppend(a, s);
    NonAsciiAppend(b, t);
  }

  lemma {:induction false} BytesKept(rule: Rule, text: string, i: nat)
    requires rule.Lawful() && rule.AsciiNames() && i <= |text| && Bytes(text)
    ensures Bytes(ReplaceFrom(rule, text, i))
    decreases |text| - i
  {
    if i < |text| {
      if WholeWordAt(rule, text, i) { BytesKept(rule, text, i + |rule.from|); } else { BytesKept(rule, text, i + 1); }
    }
  }

  lemma RewriteDoubles(rule: Rule, text: string)
    requires rule.Lawful() && rule.AsciiNames() && Bytes(text)
    ensures NonAscii(Rewritten(rule, text)) == 2 * NonAscii(text)
    ensures AllAscii(text) <==> AllAscii(ReplaceFrom(rule, text, 0))
  {
    RunsAreRuns(rule, text);
    ReplaceIsMapRuns(rule, text);
    NonAsciiKept(rule, Runs(rule, text));
    BytesKept(rule, text, 0);
    EncodedTwice(ReplaceFrom(rule, text, 0));
    NoneAreAscii(text);
    NoneAreAscii(ReplaceFrom(rule, text, 0));
  }

  // What is stored is the text with its runs mapped if and only if the text is
  // ASCII: every other byte comes out as two.
  lemma RewriteExact(rule: Rule, text: string)
    requires rule.Lawful() && rule.AsciiNames() && Bytes(text)
    ensures Rewritten(rule, text) == Join(MapRuns(rule, Runs(rule, text))) <==> AllAscii(text)
  {
    RewriteDoubles(rule, text);
    ReplaceIsMapRuns(rule, text);
    Utf8Exact(ReplaceFrom(rule, text, 0));
  }

  // Rewriting twice stores what rewriting once does if and only if the text is
  // ASCII.
  lemma RewriteTwiceExact(rule: Rule, text: string)
    requires rule.Lawful() && rule.AsciiNames() && Bytes(text)
    ensures Rewritten(rule, Rewritten(rule, text)) == Rewritten(rule, text) <==> AllAscii(text)
  {
    var once := Rewritten(rule, text);
    RewriteDoubles(rule, text);
    RewriteDoubles(rule, once);
    NoneAreAscii(text);
    if AllAscii(text) {
      Utf8Exact(ReplaceFrom(rule, text, 0));
      ReplaceIsIdempotent(rule, text);
    }
  }

  // ----- the rule for event_time

  predicate AsciiWord(c: char) {
    'a' <= c <= 'z' || 'A' <= c <= 'Z' || '0' <= c <= '9' || c == '_'
  }

  function EventTimeRule(word: char -> bool): Rule {
    Rule("event_time", "session_start", word)
  }

  // Whatever counts as a word character beyond ASCII, the rule is lawful.
  lemma EventTimeLawful(word: char -> bool)
    requires forall c :: AsciiWord(c) ==> word(c)
    ensures EventTimeRule(word).Lawful() && EventTimeRule(word).AsciiNames()
  {
    assert |"event_time"| != |"session_start"|;
  }
}
