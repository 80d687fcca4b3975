/** Cleaning of page text: whitespace normalised, short lines dropped, capped at a word. */
module CleanText {
  import opened Common
  import opened Truncate

  // ----- The library's line and word splitting -----

  function StripReturn(line: string): string {
    if line != [] && line[|line| - 1] == '\r' then line[..|line| - 1] else line
  }

  /** `str::lines`: a final line without a line feed keeps its carriage return. */
  function Lines(raw: string): seq<string> {
    if raw == [] then []
    else
      var i := IndexOf(raw, '\n');
      if i == |raw| then [raw] else [StripReturn(raw[..i])] + Lines(raw[i + 1..])
  }

  function WordLength(s: string): (n: nat)
    ensures n <= |s|
    ensures forall i :: 0 <= i < n ==> !IsWhitespace(s[i])
    ensures n < |s| ==> IsWhitespace(s[n])
  {
    if s == [] || IsWhitespace(s[0]) then 0 else 1 + WordLength(s[1..])
  }

  /** `split_whitespace`. */
  function Words(s: string): seq<string> {
    if s == [] then []
    else if IsWhitespace(s[0]) then Words(s[1..])
    else [s[..WordLength(s)]] + Words(s[WordLength(s)..])
  }

  // ----- clean_text -----

  function NormalLine(line: string): string {
    Join(Words(line), ' ')
  }

  /** The normalised lines of at least `min` characters. */
  function LongLines(lines: seq<string>, min: nat): seq<string> {
    if lines == [] then []
    else
      var line := NormalLine(lines[0]);
      (if |line| >= min then [line] else []) + LongLines(lines[1..], min)
  }

  function NormaliseLines(raw: string, min: nat): string {
    Join(LongLines(Lines(raw), min), '\n')
  }

  const MIN_LINE_LENGTH := 20

  function Clean(raw: string, max: nat): string {
    TruncateAtWord(NormaliseLines(raw, MIN_LINE_LENGTH), max)
  }

  // ----- Splitting undoes joining -----

  predicate IsWord(w: string) {
    w != [] && forall i :: 0 <= i < |w| ==> !IsWhitespace(w[i])
  }

  lemma {:induction false} WordsAreWords(s: string)
    ensures forall w :: w in Words(s) ==> IsWord(w)
  {
    if s != [] {
      if IsWhitespace(s[0]) {
        WordsAreWords(s[1..]);
      } else {
        WordsAreWords(s[WordLength(s)..]);
      }
    }
  }

  lemma WordThenRest(w: string, rest: string)
    requires IsWord(w) && (rest == [] || IsWhitespace(rest[0]))
    ensures Words(w + rest) == [w] + Words(rest)
  {
    var s := w + rest;
    assert s[0] == w[0];
    var n := WordLength(s);
    assert n == |w| by {
      assert rest != [] ==> s[|w|] == rest[0];
      assert forall i :: 0 <= i < |w| ==> s[i] == w[i];
    }
    assert s[..n] == w && s[n..] == rest;
  }

  lemma {:induction false} WordsOfJoin(ws: seq<string>, separator: char)
    requires IsWhitespace(separator) && forall w :: w in ws ==> IsWord(w)
    ensures Words(Join(ws, separator)) == ws
  {
    if ws != [] {
      assert ws == [ws[0]] + ws[1..];
      assert ws[0] in ws;
      JoinCons(ws[0], ws[1..], separator);
      var rest := if ws[1..] == [] then "" else [separator] + Join(ws[1..], separator);
      WordThenRest(ws[0], rest);
      WordsOfJoin(ws[1..], separator);
      if ws[1..] != [] {
        assert rest[1..] == Join(ws[1..], separator);
      }
    }
  }

  /** A line that `Lines` gives back unchanged when it stands between line feeds. */
  predicate IsPlainLine(line: string) {
    line != [] && forall i :: 0 <= i < |line| ==> line[i] != '\n' && line[i] != '\r'
  }

  lemma {:induction false} LinesOfJoin(lines: seq<string>)
    requires forall l :: l in lines ==> IsPlainLine(l)
    ensures Lines(Join(lines, '\n')) == lines
  {
    if lines != [] {
      var line, rest := lines[0], lines[1..];
      assert lines == [line] + rest;
      assert line in lines;
      JoinCons(line, rest, '\n');
      var s := Join(lines, '\n');
      var i := IndexOf(s, '\n');
      assert forall j :: 0 <= j < |line| ==> s[j] == line[j];
      if rest == [] {
        assert i == |s|;
      } else {
        assert s[|line|] == '\n';
        assert i == |line|;
        assert s[..i] == line && s[i + 1..] == Join(rest, '\n');
        LinesOfJoin(rest);
      }
    }
  }

  // ----- Normalising is idempotent -----

  lemma {:induction false} JoinedWordsArePlain(ws: seq<string>)
    requires forall w :: w in ws ==> IsWord(w)
    ensures var line := Join(ws, ' ');
            forall i :: 0 <= i < |line| ==> line[i] != '\n' && line[i] != '\r'
  {
    if ws != [] {
      assert ws == [ws[0]] + ws[1..];
      assert ws[0] in ws;
      JoinCons(ws[0], ws[1..], ' ');
      JoinedWordsArePlain(ws[1..]);
    }
  }

  /** A kept line: plain, long enough, and unchanged by normalising it again. */
  predicate IsSettled(line: string, min: nat) {
    IsPlainLine(line) && |line| >= min && NormalLine(line) == line
  }

  lemma {:induction false} LongLinesAreSettled(lines: seq<string>, min: nat)
    requires min >= 1
    ensures forall l :: l in LongLines(lines, min) ==> IsSettled(l, min)
  {
    if lines != [] {
      LongLinesAreSettled(lines[1..], min);
      WordsAreWords(lines[0]);
      JoinedWordsArePlain(Words(lines[0]));
      WordsOfJoin(Words(lines[0]), ' ');
    }
  }

  lemma {:induction false} SettledLinesStay(lines: seq<string>, min: nat)
    requires forall l :: l in lines ==> IsSettled(l, min)
    ensures LongLines(lines, min) == lines
  {
    if lines != [] {
      assert lines == [lines[0]] + lines[1..];
      assert lines[0] in lines;
      SettledLinesStay(lines[1..], min);
    }
  }

  /** Normalising normalised text changes nothing, for any minimum length of at least 1. */
  lemma NormaliseIdempotent(raw: string, min: nat)
    requires min >= 1
    ensures NormaliseLines(NormaliseLines(raw, min), min) == NormaliseLines(raw, min)
  {
    var kept := LongLines(Lines(raw), min);
    LongLinesAreSettled(Lines(raw), min);
    assert forall l :: l in kept ==> IsSettled(l, min);
    LinesOfJoin(kept);
    SettledLinesStay(kept, min);
  }

  lemma ExampleLines()
    ensures Lines("a\n") == ["a"] && Lines("a\n\n") == ["a", ""]
  {
    var one, two, feed := "a\n", "a\n\n", "\n";
    assert IndexOf(one, '\n') == 1 && one[..1] == "a" && one[2..] == "";
    assert IndexOf(two, '\n') == 1 && two[..1] == "a" && two[2..] == "\n";
    assert IndexOf(feed, '\n') == 0 && feed[..0] == "" && feed[1..] == "";
    assert Lines(feed) == [""];
  }

  lemma ExampleWords()
    ensures NormalLine("a") == "a" && NormalLine("") == ""
  {
    var a: string := "a";
    WordThenRest(a, "");
    assert a + "" == a;
    assert Words("") == [];
  }

  /** A minimum of 0 keeps empty lines, and a trailing one is lost the second time. */
  lemma NormaliseNeedsAMinimum()
    ensures NormaliseLines("a\n\n", 0) == "a\n" && NormaliseLines("a\n", 0) == "a"
  {
    hide Lines, NormalLine;
    ExampleLines();
    ExampleWords();
    assert ["a", ""][1..] == [""] && [""][1..] == [] && ["a"][1..] == [];
    assert LongLines([""], 0) == [""];
    assert LongLines(["a", ""], 0) == ["a", ""];
    assert LongLines(["a"], 0) == ["a"];
  }

  // ----- What is kept -----

  function Flatten(lines: seq<seq<string>>): seq<string> {
    if lines == [] then [] else lines[0] + Flatten(lines[1..])
  }

  /** The words of the lines that survive. */
  function SurvivingWords(lines: seq<string>, min: nat): seq<string> {
    if lines == [] then []
    else (if |NormalLine(lines[0])| >= min then Words(lines[0]) else []) + SurvivingWords(lines[1..], min)
  }

  lemma FirstWord(a: string) returns (w: string, rest: string)
    requires a != "" && !IsWhitespace(a[0])
    ensures a == w + rest && IsWord(w) && rest != a && |rest| < |a|
    ensures rest == "" || IsWhitespace(rest[0])
    ensures Words(a) == [w] + Words(rest)
  {
    var n := WordLength(a);
    w, rest := a[..n], a[n..];
    WordThenRest(w, rest);
  }

  lemma SkipSpace(s: string)
    requires s != "" && IsWhitespace(s[0])
    ensures Words(s) == Words(s[1..])
  {
  }

  lemma NoWords()
    ensures Words("") == []
  {
  }

  lemma {:induction false} WordsOfConcat(a: string, b: string)
    requires b == [] || IsWhitespace(b[0])
    ensures Words(a + b) == Words(a) + Words(b)
    decreases |a|
  {
    hide Words, IsWhitespace, IsWord;
    if a == [] {
      NoWords();
      assert a + b == b;
    } else if IsWhitespace(a[0]) {
      assert (a + b)[0] == a[0] && (a + b)[1..] == a[1..] + b;
      SkipSpace(a);
      SkipSpace(a + b);
      WordsOfConcat(a[1..], b);
    } else {
      var w, rest := FirstWord(a);
      WordsOfConcat(rest, b);
      assert a + b == w + (rest + b);
      assert rest != [] ==> (rest + b)[0] == rest[0];
      WordThenRest(w, rest + b);
    }
  }

  lemma {:induction false} WordsOfLongLines(lines: seq<string>, min: nat)
    requires min >= 1
    ensures Words(Join(LongLines(lines, min), '\n')) == SurvivingWords(lines, min)
  {
    if lines != [] {
      WordsOfLongLines(lines[1..], min);
      var line, rest := NormalLine(lines[0]), LongLines(lines[1..], min);
      if |line| >= min {
        assert LongLines(lines, min) == [line] + rest;
        JoinCons(line, rest, '\n');
        var tail := if rest == [] then "" else ['\n'] + Join(rest, '\n');
        WordsOfConcat(line, tail);
        WordsAreWords(lines[0]);
        WordsOfJoin(Words(lines[0]), ' ');
        if rest != [] {
          assert tail[1..] == Join(rest, '\n');
        }
      } else {
        assert LongLines(lines, min) == [] + rest == rest;
        assert SurvivingWords(lines, min) == [] + SurvivingWords(lines[1..], min);
      }
    }
  }

  /**
   * The cleaned text has at most `max` characters and is a prefix of a text whose words are, in
   * order, exactly the words of the input lines that are long enough once normalised.
   */
  lemma CleanSpec(raw: string, max: nat)
    ensures |Clean(raw, max)| <= max
    ensures Clean(raw, max) <= NormaliseLines(raw, 20)
    ensures Words(NormaliseLines(raw, 20)) == SurvivingWords(Lines(raw), 20)
  {
    TruncateAtWordSpec(NormaliseLines(raw, MIN_LINE_LENGTH), max);
    WordsOfLongLines(Lines(raw), MIN_LINE_LENGTH);
  }
}
