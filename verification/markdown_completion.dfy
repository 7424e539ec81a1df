/**
  Emoji completion in the Markdown editor: from the text of the cursor line
  up to the cursor, the query after the last ':' and the suggestions offered
  for it. Columns are 1-based, as in the editor. `ApplyEdit` states how the
  editor applies an accepted suggestion: the text in its range is replaced
  by its insert text.
 */
module MarkdownCompletion {
  import opened Text

  const Emojis: seq<string> := ["+1", "-1", "smile", "tada", "thinking_face", "heart"]

  datatype Position = Position(lineNumber: int, column: int)

  datatype Range = Range(startLineNumber: int, startColumn: int, endLineNumber: int, endColumn: int)

  datatype Suggestion = Suggestion(labelText: string, insertText: string, range: Range)

  /** The emoji names that start with the query, in list order. */
  function Candidates(names: seq<string>, query: string): (r: seq<string>)
    ensures forall e :: e in r <==> e in names && StartsWith(e, query)
  {
    if |names| == 0 then []
    else
      var rest := Candidates(names[1..], query);
      assert forall e :: e in names <==> e == names[0] || e in names[1..];
      if StartsWith(names[0], query) then [names[0]] + rest else rest
  }

  /** Selecting candidates distributes over concatenation: they keep the list's order. */
  lemma {:induction false} CandidatesAppend(a: seq<string>, b: seq<string>, query: string)
    ensures Candidates(a + b, query) == Candidates(a, query) + Candidates(b, query)
  {
    if |a| == 0 {
      assert a + b == b;
    } else {
      assert (a + b)[0] == a[0] && (a + b)[1..] == a[1..] + b;
      CandidatesAppend(a[1..], b, query);
    }
  }

  /** Every name starts with the empty query. */
  lemma {:induction false} CandidatesOfEmptyQuery(names: seq<string>)
    ensures Candidates(names, "") == names
  {
    if |names| > 0 {
      CandidatesOfEmptyQuery(names[1..]);
      assert names == [names[0]] + names[1..];
    }
  }

  /** One suggestion per candidate, replacing columns `startColumn` to the cursor. */
  function Suggest(names: seq<string>, pos: Position, startColumn: int): (r: seq<Suggestion>)
    ensures |r| == |names|
    ensures forall i :: 0 <= i < |names| ==>
      r[i] == Suggestion(":" + names[i] + ":", names[i] + ": ", Range(pos.lineNumber, startColumn, pos.lineNumber, pos.column))
  {
    seq(|names|, i requires 0 <= i < |names| =>
      Suggestion(":" + names[i] + ":", names[i] + ": ", Range(pos.lineNumber, startColumn, pos.lineNumber, pos.column)))
  }

  /** `provideCompletionItems`, given the line text before the cursor. */
  function ProvideCompletionItems(textUntilPosition: string, pos: Position): (r: seq<Suggestion>)
    ensures ':' !in textUntilPosition ==> r == []
    ensures ':' in textUntilPosition && ' ' in LastSegment(textUntilPosition, ':') ==> r == []
    ensures ':' in textUntilPosition && ' ' !in LastSegment(textUntilPosition, ':') ==>
      r == Suggest(Candidates(Emojis, LastSegment(textUntilPosition, ':')), pos, LastIndexOf(textUntilPosition, ':') + 1)
  {
    var triggerIndex := LastIndexOf(textUntilPosition, ':');
    if triggerIndex == -1 then []
    else
      var query := textUntilPosition[triggerIndex + 1..];
      if ' ' in query then []
      else Suggest(Candidates(Emojis, query), pos, triggerIndex + 1)
  }

  /** Right after a ':' the query is empty and all six names are offered. */
  lemma BareColonOffersEverything(before: string, pos: Position)
    ensures |ProvideCompletionItems(before + ":", pos)| == |Emojis|
  {
    LastSegmentAfter(before, "", ':');
    CandidatesOfEmptyQuery(Emojis);
  }

  /** The editor's edit: the columns `startColumn` up to `endColumn` of the line give way to `insert`. */
  function ApplyEdit(line: string, r: Range, insert: string): (out: string)
    requires 1 <= r.startColumn <= r.endColumn <= |line| + 1
    ensures out == line[..r.startColumn - 1] + insert + line[r.endColumn - 1..]
  {
    line[..r.startColumn - 1] + insert + line[r.endColumn - 1..]
  }

  /** As written, the range starts at the column of the ':' itself, so accepting a suggestion
      replaces the ':' too: the line keeps the text before the ':' and then the bare name. */
  lemma AcceptedSuggestionDropsColon(line: string, pos: Position, k: nat)
    requires 1 <= pos.column <= |line| + 1
    requires k < |ProvideCompletionItems(line[..pos.column - 1], pos)|
    ensures var text := line[..pos.column - 1];
      var t := LastIndexOf(text, ':');
      var s := ProvideCompletionItems(text, pos)[k];
      0 <= t && text[t] == ':' && s.range.startColumn == t + 1 &&
      ApplyEdit(line, s.range, s.insertText) == text[..t] + s.insertText + line[pos.column - 1..]
  {
    var text := line[..pos.column - 1];
    var t := LastIndexOf(text, ':');
    assert line[..t] == text[..t];
  }

  /** No candidates when no name starts with the query. */
  lemma {:induction false} CandidatesNone(names: seq<string>, query: string)
    requires forall j :: 0 <= j < |names| ==> !StartsWith(names[j], query)
    ensures Candidates(names, query) == []
  {
    if |names| > 0 {
      CandidatesNone(names[1..], query);
    }
  }

  /** When exactly one name starts with the query, it is the only candidate. */
  lemma {:induction false} CandidatesSingle(names: seq<string>, query: string, k: nat)
    requires k < |names| && StartsWith(names[k], query)
    requires forall j :: 0 <= j < |names| && j != k ==> !StartsWith(names[j], query)
    ensures Candidates(names, query) == [names[k]]
  {
    if k > 0 {
      CandidatesSingle(names[1..], query, k - 1);
    } else {
      CandidatesNone(names[1..], query);
    }
  }

  /** Of the six names only "smile" starts with "sm". */
  lemma SmileIsTheOnlyCandidate()
    ensures Candidates(Emojis, "sm") == ["smile"]
  {
    assert Emojis[2] == "smile" && StartsWith(Emojis[2], "sm");
    forall j | 0 <= j < |Emojis| && j != 2
      ensures !StartsWith(Emojis[j], "sm")
    {
      assert Emojis[j][0] != 's';
    }
    CandidatesSingle(Emojis, "sm", 2);
  }

  /** Typing ":sm" after any text offers "smile" alone, replacing from the ':' to the cursor. */
  lemma SmileSuggestion(before: string, pos: Position)
    ensures ProvideCompletionItems(before + ":sm", pos) == Suggest(["smile"], pos, |before| + 1)
  {
    var q := "sm";
    assert before + ":sm" == before + [':'] + q;
    assert ' ' !in q && ':' !in q;
    LastSegmentAfter(before, q, ':');
    LastIndexOfSeparator(before, q, ':');
    SmileIsTheOnlyCandidate();
  }

  lemma SuggestSmile(pos: Position, startColumn: int)
    ensures Suggest(["smile"], pos, startColumn) ==
      [Suggestion(":smile:", "smile: ", Range(pos.lineNumber, startColumn, pos.lineNumber, pos.column))]
  {
    var name := "smile";
    assert ":" + name + ":" == ":smile:";
    assert name + ": " == "smile: ";
  }

  /** Completing ":sm" with "smile" leaves "smile: " after the preceding text, without the opening ':'. */
  lemma SmileExample(before: string, lineNumber: int)
    ensures var pos := Position(lineNumber, |before| + 4);
      var items := ProvideCompletionItems(before + ":sm", pos);
      |items| == 1 && items[0].labelText == ":smile:" &&
      ApplyEdit(before + ":sm", items[0].range, items[0].insertText) == before + "smile: "
  {
    var pos := Position(lineNumber, |before| + 4);
    SmileSuggestion(before, pos);
    SuggestSmile(pos, |before| + 1);
    var line := before + ":sm";
    assert line[..|before|] == before && line[|before| + 3..] == [];
  }

  /** The range as intended: it starts just after the ':' and covers only the query. */
  function ProvideCompletionItemsAfterColon(textUntilPosition: string, pos: Position): (r: seq<Suggestion>)
    ensures ':' !in textUntilPosition ==> r == []
    ensures ':' in textUntilPosition && ' ' in LastSegment(textUntilPosition, ':') ==> r == []
    ensures ':' in textUntilPosition && ' ' !in LastSegment(textUntilPosition, ':') ==>
      r == Suggest(Candidates(Emojis, LastSegment(textUntilPosition, ':')), pos, LastIndexOf(textUntilPosition, ':') + 2)
  {
    var triggerIndex := LastIndexOf(textUntilPosition, ':');
    if triggerIndex == -1 then []
    else
      var query := textUntilPosition[triggerIndex + 1..];
      if ' ' in query then []
      else Suggest(Candidates(Emojis, query), pos, triggerIndex + 2)
  }

  /** The intended suggestions are the written ones with the range moved one column right. */
  lemma AfterColonShiftsRange(textUntilPosition: string, pos: Position)
    ensures var written := ProvideCompletionItems(textUntilPosition, pos);
      var intended := ProvideCompletionItemsAfterColon(textUntilPosition, pos);
      |intended| == |written| &&
      forall k :: 0 <= k < |written| ==>
        intended[k] == written[k].(range := written[k].range.(startColumn := written[k].range.startColumn + 1))
  {
  }

  /** With the intended range, accepting a suggestion keeps the ':' and completes the label:
      the text up to the cursor becomes the text before the ':', then ":name: ". */
  lemma AcceptedSuggestionKeepsColon(line: string, pos: Position, k: nat)
    requires 1 <= pos.column <= |line| + 1
    requires k < |ProvideCompletionItemsAfterColon(line[..pos.column - 1], pos)|
    ensures var text := line[..pos.column - 1];
      var t := LastIndexOf(text, ':');
      var s := ProvideCompletionItemsAfterColon(text, pos)[k];
      0 <= t &&
      ApplyEdit(line, s.range, s.insertText) == text[..t] + ":" + s.insertText + line[pos.column - 1..] &&
      ":" + s.insertText == s.labelText + " "
  {
    var text := line[..pos.column - 1];
    var t := LastIndexOf(text, ':');
    var names := Candidates(Emojis, LastSegment(text, ':'));
    var s := ProvideCompletionItemsAfterColon(text, pos)[k];
    assert s == Suggest(names, pos, t + 2)[k];
    assert line[..t + 1] == text[..t] + ":";
    assert ":" + s.insertText == s.labelText + " ";
  }
}
