/**
 * The export handlers: the access checks shared by the PDF and CSV exports,
 * the text lines the PDF report draws, the CSV records, and the greedy line
 * wrapping of the report's description. Drawing, fonts, positions, the
 * temporary file and the response stream are not modelled; the clock's
 * rendering and `Number.prototype.toFixed(2)` are parameters.
 */
module ExportController {
  import opened Optional
  import opened Strings
  import opened Sorting
  import opened Records
  import opened AnalysisStore
  import opened Http
  import opened JsObject

  // ------------------------------------------------------------- wrapText

  /** The `forEach` of `wrapText` as written, from the state (`lines`,
      `current`): a word that would push the line past `maxLength` starts a
      new line, and the current line is pushed trimmed even when it is empty. */
  function WrapFrom(words: seq<string>, lines: seq<string>, current: string, maxLength: nat): (r: seq<string>)
    ensures lines <= r
    ensures current != "" ==> |r| > |lines|
    decreases |words|
  {
    if words == [] then (if current != "" then lines + [Trim(current)] else lines)
    else if |current + words[0]| > maxLength then WrapFrom(words[1..], lines + [Trim(current)], words[0] + " ", maxLength)
    else WrapFrom(words[1..], lines, current + words[0] + " ", maxLength)
  }

  /** What `wrapText(text, maxLength)` returns: at least one line, even for "". */
  function WrapLines(text: string, maxLength: nat): (r: seq<string>)
    ensures |r| >= 1
  {
    var words := SplitOn(text, ' ');
    assert "" + words[0] == words[0];
    assert "" + words[0] + " " == words[0] + " ";
    WrapFrom(words, [], "", maxLength)
  }

  /** `wrapText`, as written. */
  method WrapText(text: string, maxLength: nat) returns (lines: seq<string>)
    ensures lines == WrapLines(text, maxLength)
  {
    var words := SplitOn(text, ' ');
    lines := [];
    var currentLine := "";
    var i := 0;
    while i < |words|
      invariant 0 <= i <= |words|
      invariant WrapFrom(words[i..], lines, currentLine, maxLength) == WrapLines(text, maxLength)
    {
      var word := words[i];
      assert words[i..][1..] == words[i + 1..];
      if |currentLine + word| > maxLength {
        lines := lines + [Trim(currentLine)];
        currentLine := word + " ";
      } else {
        currentLine := currentLine + word + " ";
      }
      i := i + 1;
    }
    if currentLine != "" {
      lines := lines + [Trim(currentLine)];
    }
  }

  /** As written, a first word longer than `maxLength` makes the first line
      empty. */
  lemma FirstLineEmpty(text: string, maxLength: nat)
    requires |SplitOn(text, ' ')[0]| > maxLength
    ensures |WrapLines(text, maxLength)| >= 2 && WrapLines(text, maxLength)[0] == ""
  {
    var words := SplitOn(text, ' ');
    assert Trim("") == "";
    assert "" + words[0] == words[0];
    assert [] + [Trim("")] == [""];
    assert WrapLines(text, maxLength) == WrapFrom(words[1..], [""], words[0] + " ", maxLength);
  }

  lemma {:induction false} WrapFromFirstLine(words: seq<string>, current: string, maxLength: nat)
    requires current != "" && !IsSpace(current[0])
    ensures |WrapFrom(words, [], current, maxLength)| >= 1 && WrapFrom(words, [], current, maxLength)[0] != ""
    decreases |words|
  {
    TrimOfNonSpaceStart(current);
    if words != [] {
      if |current + words[0]| > maxLength {
        assert [] + [Trim(current)] == [Trim(current)];
      } else {
        WrapFromFirstLine(words[1..], current + words[0] + " ", maxLength);
      }
    }
  }

  /** Conversely, when the text starts with a word that fits, the first line
      is not empty. */
  lemma FirstLineNotEmpty(text: string, maxLength: nat)
    requires text != "" && !IsSpace(text[0])
    requires |SplitOn(text, ' ')[0]| <= maxLength
    ensures |WrapLines(text, maxLength)| >= 1 && WrapLines(text, maxLength)[0] != ""
  {
    var words := SplitOn(text, ' ');
    assert words[0] != "" && words[0][0] == text[0];
    assert "" + words[0] + " " == words[0] + " ";
    WrapFromFirstLine(words[1..], words[0] + " ", maxLength);
  }

  /** `wrapText("abc", 2)` is `["", "abc"]`, which joins back to " abc". */
  lemma WrapTextEmptyFirstLine()
    ensures WrapLines("abc", 2) == ["", "abc"]
    ensures Join(WrapLines("abc", 2), " ") != "abc"
  {
    SplitAbc();
    WrapAbc();
    var lines: seq<string> := ["", "abc"];
    assert lines[1..] == ["abc"];
    assert Join(lines, " ") == "" + " " + "abc";
    assert |Join(lines, " ")| == 4;
  }

  lemma WrapAbc()
    ensures WrapFrom(["abc"], [], "", 2) == ["", "abc"]
  {
    WrapAbcFirst();
    WrapAbcLast();
  }

  lemma WrapAbcFirst()
    ensures WrapFrom(["abc"], [], "", 2) == WrapFrom([], [""], "abc ", 2)
  {
    assert Trim("") == "";
    assert [] + [Trim("")] == [""];
    assert "abc" + " " == "abc ";
    assert |"" + "abc"| > 2;
  }

  lemma WrapAbcLast()
    ensures WrapFrom([], [""], "abc ", 2) == ["", "abc"]
  {
    var current := "abc ";
    assert current != "";
    assert WrapFrom([], [""], current, 2) == [""] + [Trim(current)];
    TrimAbc();
  }

  lemma SplitAbc()
    ensures SplitOn("abc", ' ') == ["abc"]
  {
    assert "abc"[1..] == "bc" && "bc"[1..] == "c" && "c"[1..] == "";
    assert SplitOn("c", ' ') == ["c"] by {
      assert SplitOn("", ' ') == [""];
      assert ['c'] + "" == "c";
    }
    assert SplitOn("bc", ' ') == ["bc"] by {
      assert ['b'] + "c" == "bc";
    }
    assert ['a'] + "bc" == "abc";
  }

  lemma TrimAbc()
    ensures Trim("abc ") == "abc"
  {
    assert TrimStart("abc ") == "abc ";
    assert "abc "[..3] == "abc";
    assert TrimEnd("abc") == "abc";
  }

  /** A line of the wrapping fits in `maxLength` or is a single word. */
  predicate LineFits(line: string, maxLength: nat) {
    |line| <= maxLength || ' ' !in line
  }

  /** The current line is empty or ends in the space after its last word;
      without that space it fits, or it has a single word. */
  predicate CurrentFits(current: string, maxLength: nat) {
    current == "" ||
    (current[|current| - 1] == ' ' && (|current| <= maxLength + 1 || ' ' !in current[..|current| - 1]))
  }

  lemma TrimDropsLastSpace(s: string)
    requires s != [] && IsSpace(s[|s| - 1])
    ensures |Trim(s)| <= |s| - 1
    ensures CharsFrom(Trim(s), s[..|s| - 1])
  {
    var e := Trim(s);
    var d := TrimStartsAt(s);
    if e != [] {
      TrimmedBeforeLast(s, e, d);
      PrefixCharsFrom(e, s, d);
    }
  }

  /** A trimmed piece that ends in a non-space stops before a trailing space. */
  lemma TrimmedBeforeLast(s: string, e: string, d: int)
    requires TrimmedAt(s, e, d) && e != [] && !IsSpace(e[|e| - 1]) && IsSpace(s[|s| - 1])
    ensures d + |e| < |s|
  {
    assert e[|e| - 1] == s[d + |e| - 1];
  }

  /** A piece of `s` that starts at `d` and stops before its last character. */
  lemma PrefixCharsFrom(e: string, s: string, d: nat)
    requires d + |e| < |s| && e == s[d..d + |e|]
    ensures CharsFrom(e, s[..|s| - 1])
  {
    forall j | 0 <= j < |e| ensures e[j] in s[..|s| - 1] {
      assert e[j] == s[d + j] == s[..|s| - 1][d + j];
    }
  }

  lemma TrimFits(current: string, maxLength: nat)
    requires CurrentFits(current, maxLength)
    ensures LineFits(Trim(current), maxLength)
  {
    if current != "" {
      TrimDropsLastSpace(current);
    } else {
      assert Trim(current) == "";
    }
  }

  lemma {:induction false} WrapFromFits(words: seq<string>, lines: seq<string>, current: string, maxLength: nat)
    requires forall i :: 0 <= i < |words| ==> ' ' !in words[i]
    requires forall i :: 0 <= i < |lines| ==> LineFits(lines[i], maxLength)
    requires CurrentFits(current, maxLength)
    ensures forall i :: 0 <= i < |WrapFrom(words, lines, current, maxLength)| ==>
              LineFits(WrapFrom(words, lines, current, maxLength)[i], maxLength)
    decreases |words|
  {
    if words == [] {
      TrimFits(current, maxLength);
    } else {
      var w := words[0];
      var next := w + " ";
      assert next[..|next| - 1] == w;
      if |current + w| > maxLength {
        TrimFits(current, maxLength);
        WrapFromFits(words[1..], lines + [Trim(current)], next, maxLength);
      } else {
        var c := current + w + " ";
        assert |c| <= maxLength + 1;
        WrapFromFits(words[1..], lines, c, maxLength);
      }
    }
  }

  /** Every line of `wrapText` is at most `maxLength` characters long, or is
      a single word longer than that. */
  lemma WrapLinesFit(text: string, maxLength: nat)
    ensures forall i :: 0 <= i < |WrapLines(text, maxLength)| ==> LineFits(WrapLines(text, maxLength)[i], maxLength)
  {
    WrapFromFits(SplitOn(text, ' '), [], "", maxLength);
  }

  // ----------------------------------------------------- wrapText, corrected

  /** The fold with the evident intent: a line is pushed only when it is not
      empty once trimmed, so every line it adds is non-empty. */
  function WrapFromNonEmpty(words: seq<string>, lines: seq<string>, current: string, maxLength: nat): (r: seq<string>)
    ensures lines <= r
    ensures forall i :: |lines| <= i < |r| ==> r[i] != ""
    decreases |words|
  {
    if words == [] then (if Trim(current) != "" then lines + [Trim(current)] else lines)
    else if |current + words[0]| > maxLength then
      WrapFromNonEmpty(words[1..], if Trim(current) != "" then lines + [Trim(current)] else lines, words[0] + " ", maxLength)
    else WrapFromNonEmpty(words[1..], lines, current + words[0] + " ", maxLength)
  }

  /** `wrapText` corrected: no empty lines. */
  function WrapLinesNonEmpty(text: string, maxLength: nat): seq<string> {
    WrapFromNonEmpty(SplitOn(text, ' '), [], "", maxLength)
  }

  predicate NonEmpty(s: string) {
    s != ""
  }

  lemma FilterSnoc(lines: seq<string>, x: string)
    ensures Filter(lines + [x], NonEmpty) == if x != "" then Filter(lines, NonEmpty) + [x] else Filter(lines, NonEmpty)
  {
    FilterAppend(lines, [x], NonEmpty);
    assert Filter([x], NonEmpty) == if x != "" then [x] else [];
  }

  lemma {:induction false} WrapFromNonEmptyIsFiltered(words: seq<string>, lines: seq<string>, current: string, maxLength: nat)
    ensures WrapFromNonEmpty(words, Filter(lines, NonEmpty), current, maxLength) ==
            Filter(WrapFrom(words, lines, current, maxLength), NonEmpty)
    decreases |words|
  {
    var t := Trim(current);
    FilterSnoc(lines, t);
    if words == [] {
      if current == "" {
        assert t == "";
      }
    } else if |current + words[0]| > maxLength {
      WrapFromNonEmptyIsFiltered(words[1..], lines + [t], words[0] + " ", maxLength);
    } else {
      WrapFromNonEmptyIsFiltered(words[1..], lines, current + words[0] + " ", maxLength);
    }
  }

  /** The corrected wrapping is the original one without its empty lines: no
      line is empty, and every line fits or is a single word. */
  lemma WrapLinesNonEmptyProperties(text: string, maxLength: nat)
    ensures WrapLinesNonEmpty(text, maxLength) == Filter(WrapLines(text, maxLength), NonEmpty)
    ensures forall i :: 0 <= i < |WrapLinesNonEmpty(text, maxLength)| ==>
              WrapLinesNonEmpty(text, maxLength)[i] != "" && LineFits(WrapLinesNonEmpty(text, maxLength)[i], maxLength)
  {
    WrapFromNonEmptyIsFiltered(SplitOn(text, ' '), [], "", maxLength);
    WrapLinesFit(text, maxLength);
    FilterFrom(WrapLines(text, maxLength), NonEmpty);
  }

  predicate NoEmpty(pieces: seq<string>) {
    forall i :: 0 <= i < |pieces| ==> pieces[i] != ""
  }

  /** Words that a single space separates and that hold no whitespace. */
  predicate CleanWords(words: seq<string>) {
    forall i :: 0 <= i < |words| ==> words[i] != "" && NoSpace(words[i])
  }

  /** `a` and `b` joined by a space, dropping the space next to an empty side. */
  function Glue(a: string, b: string): string {
    if a == "" then b else if b == "" then a else a + " " + b
  }

  lemma {:induction false} JoinAppend(a: seq<string>, b: seq<string>)
    requires NoEmpty(a) && NoEmpty(b)
    ensures Join(a + b, " ") == Glue(Join(a, " "), Join(b, " "))
    ensures Join(a, " ") == "" <==> a == []
    decreases |a|
  {
    JoinNonEmpty(a);
    JoinNonEmpty(b);
    if a == [] {
      assert a + b == b;
    } else {
      var x, t := a[0], a[1..];
      assert a == [x] + t && a + b == [x] + (t + b);
      assert NoEmpty(t) by {
        forall i | 0 <= i < |t| ensures t[i] != "" {
          assert t[i] == a[i + 1];
        }
      }
      JoinAppend(t, b);
      JoinCons(x, t + b, " ");
      JoinCons(x, t, " ");
    }
  }

  /** Joining pieces that are not empty gives "" only for no pieces. */
  lemma JoinNonEmpty(a: seq<string>)
    requires NoEmpty(a)
    ensures Join(a, " ") == "" <==> a == []
  {
    if |a| > 1 {
      assert |Join(a, " ")| >= |a[0] + " "|;
    }
  }

  /** The current line holding the words `g`. */
  function Current(g: seq<string>): string {
    if g == [] then "" else Join(g, " ") + " "
  }

  lemma {:induction false} JoinEnds(g: seq<string>)
    requires CleanWords(g) && g != []
    ensures Join(g, " ") != "" && !IsSpace(Join(g, " ")[0]) && !IsSpace(Join(g, " ")[|Join(g, " ")| - 1])
  {
    if |g| > 1 {
      assert forall i :: 0 <= i < |g[1..]| ==> g[1..][i] == g[i + 1];
      JoinEnds(g[1..]);
    }
  }

  lemma TrimCurrent(g: seq<string>)
    requires CleanWords(g)
    ensures Trim(Current(g)) == Join(g, " ")
  {
    if g == [] {
      assert Trim("") == "";
    } else {
      var t := Join(g, " ");
      JoinEnds(g);
      var c := t + " ";
      assert TrimStart(c) == c;
      assert c[..|c| - 1] == t;
      assert TrimEnd(c) == TrimEnd(t);
      assert TrimEnd(t) == t;
    }
  }

  /** The line the fold pushes from the current line `Current(g)`. */
  function Pushed(lines: seq<string>, g: seq<string>): seq<string> {
    if Trim(Current(g)) != "" then lines + [Trim(Current(g))] else lines
  }

  lemma PushedJoin(lines: seq<string>, g: seq<string>)
    requires CleanWords(g) && NoEmpty(lines)
    ensures NoEmpty(Pushed(lines, g))
    ensures Join(Pushed(lines, g), " ") == Glue(Join(lines, " "), Join(g, " "))
  {
    TrimCurrent(g);
    JoinAppend(lines, []);
    assert lines + [] == lines;
    if g != [] {
      JoinEnds(g);
      JoinAppend(lines, [Join(g, " ")]);
    } else {
      JoinAppend(g, []);
    }
  }

  lemma CurrentSnoc(g: seq<string>, w: string)
    requires CleanWords(g) && w != "" && NoSpace(w)
    ensures CleanWords(g + [w])
    ensures Current(g) + w + " " == Current(g + [w])
  {
    JoinAppend(g, [w]);
    JoinAppend(g, []);
    assert g + [] == g;
  }

  lemma GlueAssoc(a: string, b: string, c: string)
    ensures Glue(Glue(a, b), c) == Glue(a, Glue(b, c))
  {
  }

  lemma OverflowGlue(lines: seq<string>, g: seq<string>, words: seq<string>)
    requires CleanWords(words) && CleanWords(g) && NoEmpty(lines)
    ensures Glue(Join(Pushed(lines, g), " "), Join(words, " ")) == Glue(Join(lines, " "), Join(g + words, " "))
  {
    PushedJoin(lines, g);
    JoinAppend(g, words);
    GlueAssoc(Join(lines, " "), Join(g, " "), Join(words, " "));
  }

  lemma UnfoldOverflow(words: seq<string>, lines: seq<string>, g: seq<string>, maxLength: nat)
    requires words != [] && |Current(g) + words[0]| > maxLength
    ensures WrapFromNonEmpty(words, lines, Current(g), maxLength) ==
            WrapFromNonEmpty(words[1..], Pushed(lines, g), words[0] + " ", maxLength)
  {
  }

  lemma UnfoldFits(words: seq<string>, lines: seq<string>, g: seq<string>, maxLength: nat)
    requires words != [] && |Current(g) + words[0]| <= maxLength
    requires CleanWords(g) && words[0] != "" && NoSpace(words[0])
    ensures CleanWords(g + [words[0]])
    ensures WrapFromNonEmpty(words, lines, Current(g), maxLength) ==
            WrapFromNonEmpty(words[1..], lines, Current(g + [words[0]]), maxLength)
  {
    CurrentSnoc(g, words[0]);
  }

  lemma {:induction false} NonEmptyJoin(words: seq<string>, lines: seq<string>, g: seq<string>, maxLength: nat)
    requires CleanWords(words) && CleanWords(g) && NoEmpty(lines)
    ensures Join(WrapFromNonEmpty(words, lines, Current(g), maxLength), " ") == Glue(Join(lines, " "), Join(g + words, " "))
    decreases |words|, 1
  {
    if words == [] {
      PushedJoin(lines, g);
      assert g + words == g;
    } else if |Current(g) + words[0]| > maxLength {
      NonEmptyJoinOverflow(words, lines, g, maxLength);
    } else {
      NonEmptyJoinFits(words, lines, g, maxLength);
    }
  }

  lemma {:induction false} NonEmptyJoinOverflow(words: seq<string>, lines: seq<string>, g: seq<string>, maxLength: nat)
    requires CleanWords(words) && CleanWords(g) && NoEmpty(lines)
    requires words != [] && |Current(g) + words[0]| > maxLength
    ensures Join(WrapFromNonEmpty(words, lines, Current(g), maxLength), " ") == Glue(Join(lines, " "), Join(g + words, " "))
    decreases |words|, 0
  {
    var w := words[0];
    var rest := words[1..];
    assert [w] + rest == words;
    assert CleanWords(rest) by {
      assert forall i :: 0 <= i < |rest| ==> rest[i] == words[i + 1];
    }
    UnfoldOverflow(words, lines, g, maxLength);
    PushedJoin(lines, g);
    assert Current([w]) == w + " ";
    NonEmptyJoin(rest, Pushed(lines, g), [w], maxLength);
    OverflowGlue(lines, g, words);
  }

  lemma {:induction false} NonEmptyJoinFits(words: seq<string>, lines: seq<string>, g: seq<string>, maxLength: nat)
    requires CleanWords(words) && CleanWords(g) && NoEmpty(lines)
    requires words != [] && |Current(g) + words[0]| <= maxLength
    ensures Join(WrapFromNonEmpty(words, lines, Current(g), maxLength), " ") == Glue(Join(lines, " "), Join(g + words, " "))
    decreases |words|, 0
  {
    CleanTail(words);
    UnfoldFits(words, lines, g, maxLength);
    SnocThenRest(g, words);
    NonEmptyJoin(words[1..], lines, g + [words[0]], maxLength);
  }

  lemma CleanTail(words: seq<string>)
    requires CleanWords(words) && words != []
    ensures CleanWords(words[1..])
  {
    assert forall i :: 0 <= i < |words[1..]| ==> words[1..][i] == words[i + 1];
  }

  lemma SnocThenRest(g: seq<string>, words: seq<string>)
    requires words != []
    ensures g + [words[0]] + words[1..] == g + words
  {
    assert words == [words[0]] + words[1..];
  }

  /** The corrected wrapping of words separated by single spaces joins back
      to the text. */
  lemma WrapLinesNonEmptyRoundTrip(words: seq<string>, maxLength: nat)
    requires |words| >= 1 && CleanWords(words)
    ensures Join(WrapLinesNonEmpty(Join(words, [' ']), maxLength), " ") == Join(words, " ")
  {
    assert forall i :: 0 <= i < |words| ==> ' ' !in words[i] by {
      forall i | 0 <= i < |words| ensures ' ' !in words[i] {
        assert forall j :: 0 <= j < |words[i]| ==> words[i][j] != ' ';
      }
    }
    SplitOnJoin(words, ' ');
    NonEmptyJoin(words, [], [], maxLength);
    assert [] + words == words;
  }

  // ------------------------------------------------------------ the reports

  const ReportHeading := "Lynalyze - URL Analysis Report"
  const DescriptionWidth: nat := 80

  /** How a template literal shows a field that may be missing. */
  function Shown(s: Option<string>): (r: string)
    ensures s.Some? ==> r == s.value
    ensures s.None? ==> r == "undefined"
  {
    match s
    case Some(v) => v
    case None => "undefined"
  }

  /** The lines drawn for the description: none for an empty one, otherwise
      `wrapText(description, 80)` as written, empty lines included. */
  function DescriptionLines(description: string): (r: seq<string>)
    ensures description == "" ==> r == []
    ensures description != "" ==> |r| >= 1
    ensures forall i :: 0 <= i < |r| ==> LineFits(r[i], DescriptionWidth)
  {
    if description == "" then []
    else
      WrapLinesFit(description, DescriptionWidth);
      WrapLines(description, DescriptionWidth)
  }

  /** The non-empty lines drawn are the corrected wrapping of the description. */
  lemma DescriptionNonEmptyLines(description: string)
    ensures Filter(DescriptionLines(description), NonEmpty) == WrapLinesNonEmpty(description, DescriptionWidth)
  {
    if description == "" {
      assert SplitOn(description, ' ') == [""];
      assert WrapLinesNonEmpty(description, DescriptionWidth) == [];
    } else {
      WrapLinesNonEmptyProperties(description, DescriptionWidth);
    }
  }

  /** A description whose first word is longer than 80 characters is drawn
      below an empty first line. */
  lemma DescriptionFirstLineEmpty(description: string)
    requires |SplitOn(description, ' ')[0]| > DescriptionWidth
    ensures |DescriptionLines(description)| >= 2 && DescriptionLines(description)[0] == ""
  {
    FirstLineEmpty(description, DescriptionWidth);
  }

  /** The "Text Analysis" block, or `None` when the polarity it formats with
      `toFixed(2)` is missing, which throws. */
  function AnalysisLines(t: Option<TextAnalysis>, toFixed2: real -> string): (r: Option<seq<string>>)
    ensures r.None? <==> t.Some? && t.value.sentiment.polarity.None?
    ensures t.None? ==> r == Some([])
    ensures t.Some? && r.Some? ==> r.value == ["Text Analysis", "Word Count: " + NatToString(t.value.wordCount),
      "Sentiment: " + Shown(t.value.sentiment.labelText) + " (" + toFixed2(t.value.sentiment.polarity.value) + ")"]
  {
    match t
    case None => Some([])
    case Some(ta) =>
      match ta.sentiment.polarity
      case None => None
      case Some(p) =>
        Some(["Text Analysis", "Word Count: " + NatToString(ta.wordCount),
              "Sentiment: " + Shown(ta.sentiment.labelText) + " (" + toFixed2(p) + ")"])
  }

  /** The text of the PDF report, top to bottom, when it can be produced. */
  function ReportLines(a: Analysis, generated: string, toFixed2: real -> string): (r: Option<seq<string>>)
    ensures r.None? <==> a.data.textAnalysis.Some? && a.data.textAnalysis.value.sentiment.polarity.None?
    ensures r.Some? ==> (
      var n := |DescriptionLines(a.data.description)|;
      |r.value| >= 4 + n &&
      r.value[..3] == [ReportHeading, "URL: " + a.data.url, "Title: " + a.data.title] &&
      r.value[3..3 + n] == DescriptionLines(a.data.description) &&
      r.value[3 + n..|r.value| - 1] == AnalysisLines(a.data.textAnalysis, toFixed2).value &&
      r.value[|r.value| - 1] == "Generated: " + generated)
  {
    match AnalysisLines(a.data.textAnalysis, toFixed2)
    case None => None
    case Some(block) =>
      var head := [ReportHeading, "URL: " + a.data.url, "Title: " + a.data.title];
      var desc := DescriptionLines(a.data.description);
      var foot := "Generated: " + generated;
      ConcatParts(head, desc, block, foot);
      Some(head + desc + block + [foot])
  }

  /** Where the parts of a concatenation sit. */
  lemma ConcatParts<T>(head: seq<T>, mid: seq<T>, rest: seq<T>, last: T)
    ensures var r := head + mid + rest + [last];
            |r| >= |head| + |mid| + 1 && r[..|head|] == head &&
            r[|head|..|head| + |mid|] == mid && r[|r| - 1] == last
  {
  }

  /** When the description is words separated by single spaces, the report's
      non-empty description lines, joined with spaces, give it back. */
  lemma DescriptionRoundTrip(words: seq<string>)
    requires |words| >= 1 && CleanWords(words)
    ensures Join(Filter(DescriptionLines(Join(words, " ")), NonEmpty), " ") == Join(words, " ")
  {
    DescriptionNonEmptyLines(Join(words, " "));
    WrapLinesNonEmptyRoundTrip(words, DescriptionWidth);
  }

  /** `exportToPdf`: the text of the report of a stored analysis its owner
      asks for. The clock's `toLocaleString()` is `generated`. */
  method ExportPdf(model: AnalysisModel, id: string, userId: string, generated: string, toFixed2: real -> string)
    returns (r: Reply<seq<string>>)
    ensures id !in model.analyses ==> r == Failure(NotFound, "Analysis not found")
    ensures id in model.analyses && model.analyses[id].data.userId != userId ==> r == Failure(Forbidden, "Access denied")
    ensures id in model.analyses && model.analyses[id].data.userId == userId ==> (
      match ReportLines(model.analyses[id], generated, toFixed2)
      case None => r == Failure(ServerError, "Failed to export PDF")
      case Some(lines) => r == Success(Ok, lines))
    ensures r.Success? ==> model.FindById(id).Some? && model.analyses[id].data.userId == userId
  {
    var analysis := model.FindById(id);
    if analysis.None? {
      return Failure(NotFound, "Analysis not found");
    }
    if analysis.value.data.userId != userId {
      return Failure(Forbidden, "Access denied");
    }
    var lines := ReportLines(analysis.value, generated, toFixed2);
    if lines.None? {
      return Failure(ServerError, "Failed to export PDF");
    }
    return Success(Ok, lines.value);
  }

  /** A row of the CSV export, under the header Word, Frequency. */
  datatype CsvRecord = CsvRecord(word: string, count: nat)

  const CsvHeader := ["Word", "Frequency"]

  /** The rows: the word frequency object's entries, in enumeration order. */
  function CsvRecords(t: Option<TextAnalysis>): (r: seq<CsvRecord>)
    ensures t.None? ==> r == []
    ensures t.Some? ==> |r| == |t.value.wordFrequency|
    ensures t.Some? ==> forall i :: 0 <= i < |r| ==>
              (r[i].word, r[i].count) == EnumerationOrder(t.value.wordFrequency)[i]
  {
    match t
    case None => []
    case Some(ta) =>
      var es := EnumerationOrder(ta.wordFrequency);
      seq(|es|, i requires 0 <= i < |es| => CsvRecord(es[i].0, es[i].1))
  }

  /** The rows hold exactly the entries of the word frequency. */
  lemma CsvRecordsEntries(t: TextAnalysis)
    ensures forall w, c: nat :: CsvRecord(w, c) in CsvRecords(Some(t)) <==> (w, c) in t.wordFrequency
  {
    forall w, c: nat ensures CsvRecord(w, c) in CsvRecords(Some(t)) <==> (w, c) in t.wordFrequency {
      CsvRecordEntry(t, w, c);
    }
  }

  lemma CsvRecordEntry(t: TextAnalysis, w: string, c: nat)
    ensures CsvRecord(w, c) in CsvRecords(Some(t)) <==> (w, c) in t.wordFrequency
  {
    var es := EnumerationOrder(t.wordFrequency);
    var rs := CsvRecords(Some(t));
    assert (w, c) in t.wordFrequency <==> (w, c) in multiset(es);
    if (w, c) in es {
      var i :| 0 <= i < |es| && es[i] == (w, c);
      assert rs[i] == CsvRecord(w, c);
    }
    if CsvRecord(w, c) in rs {
      var i :| 0 <= i < |rs| && rs[i] == CsvRecord(w, c);
      assert es[i] == (w, c);
    }
  }

  /** The rows of a word frequency that is itself an enumeration, as every
      stored one is, follow it entry by entry. */
  lemma CsvRecordsStoredOrder(t: TextAnalysis, created: seq<(string, nat)>)
    requires t.wordFrequency == EnumerationOrder(created)
    ensures forall i :: 0 <= i < |t.wordFrequency| ==>
              CsvRecords(Some(t))[i] == CsvRecord(t.wordFrequency[i].0, t.wordFrequency[i].1)
  {
    EnumerationOrderIdempotent(created);
  }

  /** `exportToCsv`: the rows of the CSV file for a stored analysis its owner
      asks for. */
  method ExportCsv(model: AnalysisModel, id: string, userId: string) returns (r: Reply<seq<CsvRecord>>)
    ensures id !in model.analyses ==> r == Failure(NotFound, "Analysis not found")
    ensures id in model.analyses && model.analyses[id].data.userId != userId ==> r == Failure(Forbidden, "Access denied")
    ensures id in model.analyses && model.analyses[id].data.userId == userId ==>
              r == Success(Ok, CsvRecords(model.analyses[id].data.textAnalysis))
  {
    var analysis := model.FindById(id);
    if analysis.None? {
      return Failure(NotFound, "Analysis not found");
    }
    if analysis.value.data.userId != userId {
      return Failure(Forbidden, "Access denied");
    }
    var records := CsvRecords(analysis.value.data.textAnalysis);
    return Success(Ok, records);
  }
}
