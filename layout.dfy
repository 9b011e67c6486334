/** Help-text layout for the command-line help renderer: widths, greedy word
    wrapping and the aligned rendering of one help column. Widths count
    characters; the terminal width is a parameter. */
module Layout {
  import opened Strings

  /** `visible_width`: the number of characters (escape sequences are not
      treated specially). */
  function VisibleWidth(s: string): nat {
    |s|
  }

  /** `max_usage_width`: the widest item, or 0 when there are none. */
  function MaxUsageWidth(items: seq<string>): (r: nat)
    ensures forall i :: 0 <= i < |items| ==> VisibleWidth(items[i]) <= r
    ensures items == [] ==> r == 0
    ensures items != [] ==> exists i :: 0 <= i < |items| && r == VisibleWidth(items[i])
  {
    if items == [] then 0
    else
      var init := items[..|items| - 1];
      var m := MaxUsageWidth(init);
      var w := VisibleWidth(items[|items| - 1]);
      assert forall i :: 0 <= i < |init| ==> items[i] == init[i];
      if w >= m then w else m
  }

  // ---------------------------------------------------------------------
  // wrap_text
  // ---------------------------------------------------------------------

  /** The state of the word loop of `wrap_text`: the finished lines and the
      line being filled. */
  datatype FillState = FillState(done: seq<string>, current: string)

  /** Placing one word: when the line is not empty and the word, with a
      separating space, would pass the width, the line is finished and the
      word starts the next one; otherwise the word joins the line after one
      space (or opens it). */
  function Place(st: FillState, word: string, width: nat): FillState {
    if |st.current| > 0 && |st.current| + 1 + |word| > width then FillState(st.done + [st.current], word)
    else if |st.current| > 0 then FillState(st.done, st.current + " " + word)
    else FillState(st.done, st.current + word)
  }

  /** Placing the words in order, from an empty state. */
  function Fill(words: seq<string>, width: nat): FillState {
    if words == [] then FillState([], "")
    else Place(Fill(words[..|words| - 1], width), words[|words| - 1], width)
  }

  /** The lines of a state once the last line is flushed (when not empty). */
  function Close(st: FillState): seq<string> {
    if st.current != [] then st.done + [st.current] else st.done
  }

  /** One paragraph: an empty one is one empty line; otherwise its words,
      filled greedily (a blank paragraph gives no line). */
  function WrapParagraph(par: string, width: nat): seq<string> {
    if par == [] then [""] else Close(Fill(Words(par), width))
  }

  /** The paragraphs wrapped one after the other; every line is
      newline-free and fits the width, unless it is one word longer than
      the width. */
  function WrapParagraphs(pars: seq<string>, width: nat): (r: seq<string>)
    ensures forall k :: 0 <= k < |r| ==> '\n' !in r[k] && Fits(r[k], width)
  {
    if pars == [] then []
    else
      ParagraphLines(pars[|pars| - 1], width);
      WrapParagraphs(pars[..|pars| - 1], width) + WrapParagraph(pars[|pars| - 1], width)
  }

  /** `wrap_text`: width 0 leaves the text as it is; otherwise each
      `\n`-separated paragraph is wrapped on its own, and no line at all
      becomes one empty line. */
  function Wrap(text: string, width: nat): (r: seq<string>)
    ensures r != []
    ensures width == 0 ==> r == [text]
  {
    if width == 0 then [text]
    else
      var ls := WrapParagraphs(SplitOn(text, '\n'), width);
      if ls == [] then [""] else ls
  }

  /** A line that passes the width holds a single word. */
  predicate Fits(line: string, width: nat) {
    |line| <= width || NoSpace(line)
  }

  /** A word-loop state built from words: every line is a non-empty,
      newline-free line that fits; the current line is empty only before the
      first word. */
  predicate GoodState(st: FillState, width: nat, any: bool) {
    (forall k :: 0 <= k < |st.done| ==> st.done[k] != [] && '\n' !in st.done[k] && Fits(st.done[k], width))
    && '\n' !in st.current && Fits(st.current, width)
    && (st.current != [] <==> any)
    && (!any ==> st.done == [])
  }

  predicate GoodWords(words: seq<string>) {
    forall k :: 0 <= k < |words| ==> words[k] != [] && NoSpace(words[k])
  }

  /** A word has no newline. */
  lemma NoNewline(w: string)
    requires NoSpace(w)
    ensures '\n' !in w
  {
    assert forall i :: 0 <= i < |w| ==> w[i] != '\n';
  }

  /** Placing a word keeps the state good, and the lines joined by single
      spaces gain exactly that word: wrapping only turns separating spaces
      into line breaks. */
  lemma PlaceKeeps(st: FillState, word: string, width: nat, any: bool)
    requires GoodState(st, width, any)
    requires word != [] && NoSpace(word)
    ensures GoodState(Place(st, word, width), width, true)
    ensures Join(Close(Place(st, word, width)), " ") ==
      if any then Join(Close(st), " ") + " " + word else word
  {
    var next := Place(st, word, width);
    NoNewline(word);
    if |st.current| > 0 && |st.current| + 1 + |word| > width {
      JoinSnoc(st.done + [st.current], word, " ");
    } else if |st.current| > 0 {
      assert '\n' !in st.current + " " + word by {
        assert forall i :: 0 <= i < |st.current| ==> st.current[i] != '\n';
        assert forall i :: 0 <= i < |word| ==> word[i] != '\n';
        assert forall i :: 0 <= i < |st.current + " " + word| ==> (st.current + " " + word)[i] != '\n';
      }
      JoinSnoc(st.done, st.current + " " + word, " ");
      JoinSnoc(st.done, st.current, " ");
    } else {
      assert st.current + word == word;
    }
  }

  /** Filling keeps every line good and gives back the words when the lines
      are joined by single spaces. */
  lemma {:induction false} FillKeeps(words: seq<string>, width: nat)
    requires GoodWords(words)
    ensures GoodState(Fill(words, width), width, words != [])
    ensures Join(Close(Fill(words, width)), " ") == Join(words, " ")
  {
    if words != [] {
      var init := words[..|words| - 1];
      var w := words[|words| - 1];
      assert GoodWords(init) by {
        assert forall k :: 0 <= k < |init| ==> init[k] == words[k];
      }
      FillKeeps(init, width);
      PlaceKeeps(Fill(init, width), w, width, init != []);
      assert words == init + [w];
      JoinSnoc(init, w, " ");
    }
  }

  /** A paragraph keeps its words and their order: joining its lines with
      single spaces gives its words joined with single spaces. */
  lemma ParagraphWords(par: string, width: nat)
    requires par != []
    ensures Join(WrapParagraph(par, width), " ") == Join(Words(par), " ")
    ensures Words(Join(WrapParagraph(par, width), " ")) == Words(par)
  {
    FillKeeps(Words(par), width);
    WordsJoin(Words(par));
  }

  /** Every line of a wrapped paragraph is newline-free and fits, unless it
      is a single word longer than the width. */
  lemma ParagraphLines(par: string, width: nat)
    ensures forall k :: 0 <= k < |WrapParagraph(par, width)| ==>
      '\n' !in WrapParagraph(par, width)[k] && Fits(WrapParagraph(par, width)[k], width)
  {
    if par != [] {
      FillKeeps(Words(par), width);
    }
  }

  /** Wrapping paragraphs one after the other. */
  lemma {:induction false} ParagraphsAppend(ps: seq<string>, qs: seq<string>, width: nat)
    ensures WrapParagraphs(ps + qs, width) == WrapParagraphs(ps, width) + WrapParagraphs(qs, width)
  {
    if qs == [] {
      assert ps + qs == ps;
    } else {
      ParagraphsAppend(ps, qs[..|qs| - 1], width);
      ParagraphsAppendStep(ps, qs, width);
    }
  }

  lemma ParagraphsAppendStep(ps: seq<string>, qs: seq<string>, width: nat)
    requires qs != []
    requires WrapParagraphs(ps + qs[..|qs| - 1], width) == WrapParagraphs(ps, width) + WrapParagraphs(qs[..|qs| - 1], width)
    ensures WrapParagraphs(ps + qs, width) == WrapParagraphs(ps, width) + WrapParagraphs(qs, width)
  {
    var all := ps + qs;
    InitAppend(ps, qs);
    ParagraphsUnfold(all, width);
    ParagraphsUnfold(qs, width);
    AppendAssoc(WrapParagraphs(ps, width), WrapParagraphs(qs[..|qs| - 1], width), WrapParagraph(qs[|qs| - 1], width));
  }

  lemma InitAppend(ps: seq<string>, qs: seq<string>)
    requires qs != []
    ensures (ps + qs)[..|ps + qs| - 1] == ps + qs[..|qs| - 1]
    ensures (ps + qs)[|ps + qs| - 1] == qs[|qs| - 1]
  {
  }

  lemma ParagraphsUnfold(pars: seq<string>, width: nat)
    requires pars != []
    ensures WrapParagraphs(pars, width) == WrapParagraphs(pars[..|pars| - 1], width) + WrapParagraph(pars[|pars| - 1], width)
  {
  }

  /** With a positive width every line of `wrap_text` is free of newlines
      and at most the width, unless it is one word longer than the width. */
  lemma WrapLines(text: string, width: nat)
    requires width > 0
    ensures forall k :: 0 <= k < |Wrap(text, width)| ==> '\n' !in Wrap(text, width)[k] && Fits(Wrap(text, width)[k], width)
  {
  }

  /** A text without newlines is one paragraph. */
  lemma WrapOneParagraph(text: string, width: nat)
    requires width > 0 && '\n' !in text
    ensures Wrap(text, width) == if WrapParagraph(text, width) == [] then [""] else WrapParagraph(text, width)
  {
    SplitOnNone(text, '\n');
    assert [text][..0] == [];
    assert WrapParagraphs([text], width) == WrapParagraph(text, width);
  }

  /** A text shorter than the width with single spaces between its words is
      one line. */
  lemma WrapShort(text: string, width: nat)
    requires width > 0 && text != [] && |text| <= width && '\n' !in text
    requires Words(text) != [] && Join(Words(text), " ") == text
    ensures Wrap(text, width) == [text]
  {
    WrapOneParagraph(text, width);
    FillNoBreak(Words(text), width);
    FillKeeps(Words(text), width);
  }

  /** When the words, joined by single spaces, fit, no line is finished early. */
  lemma {:induction false} FillNoBreak(words: seq<string>, width: nat)
    requires GoodWords(words) && words != []
    requires |Join(words, " ")| <= width
    ensures Fill(words, width).done == []
    ensures Fill(words, width).current == Join(words, " ")
  {
    var init := words[..|words| - 1];
    var w := words[|words| - 1];
    assert words == init + [w];
    JoinSnoc(init, w, " ");
    if init != [] {
      assert GoodWords(init) by {
        assert forall k :: 0 <= k < |init| ==> init[k] == words[k];
      }
      FillNoBreak(init, width);
    }
  }

  // ---------------------------------------------------------------------
  // The loops of wrap_text
  // ---------------------------------------------------------------------

  lemma FillStep(words: seq<string>, j: nat, width: nat)
    requires j < |words|
    ensures Fill(words[..j + 1], width) == Place(Fill(words[..j], width), words[j], width)
  {
    assert words[..j + 1][..j] == words[..j];
  }

  lemma ParagraphsStep(pars: seq<string>, i: nat, width: nat)
    requires i < |pars|
    ensures WrapParagraphs(pars[..i + 1], width) == WrapParagraphs(pars[..i], width) + WrapParagraph(pars[i], width)
  {
    assert pars[..i + 1][..i] == pars[..i];
  }

  /** The word loop of `wrap_text` over one non-empty paragraph, pushing the
      finished lines. */
  method WrapWords(paragraph: string, width: nat, lines: seq<string>) returns (out: seq<string>)
    requires paragraph != []
    ensures out == lines + WrapParagraph(paragraph, width)
  {
    out := lines;
    var currentLine := "";
    var currentWidth := 0;
    var words := Words(paragraph);
    for j := 0 to |words|
      invariant out == lines + Fill(words[..j], width).done
      invariant currentLine == Fill(words[..j], width).current
      invariant currentWidth == |currentLine|
    {
      FillStep(words, j, width);
      var word := words[j];
      var wordWidth := VisibleWidth(word);
      if currentWidth > 0 && currentWidth + 1 + wordWidth > width {
        out := out + [currentLine];
        currentLine := "";
        currentWidth := 0;
      }
      if currentWidth > 0 {
        currentLine := currentLine + " ";
        currentWidth := currentWidth + 1;
      }
      currentLine := currentLine + word;
      currentWidth := currentWidth + wordWidth;
    }
    assert words[..|words|] == words;
    if currentLine != [] {
      out := out + [currentLine];
    }
  }

  /** `wrap_text`. */
  method WrapText(text: string, width: nat) returns (lines: seq<string>)
    ensures lines == Wrap(text, width)
  {
    if width == 0 {
      return [text];
    }
    lines := [];
    var paragraphs := SplitOn(text, '\n');
    for i := 0 to |paragraphs|
      invariant lines == WrapParagraphs(paragraphs[..i], width)
    {
      ParagraphsStep(paragraphs, i, width);
      if paragraphs[i] == [] {
        lines := lines + [""];
      } else {
        lines := WrapWords(paragraphs[i], width, lines);
      }
    }
    assert paragraphs[..|paragraphs|] == paragraphs;
    if lines == [] {
      lines := [""];
    }
  }

  // ---------------------------------------------------------------------
  // render_help_text
  // ---------------------------------------------------------------------

  /** The usage column is indented by 2 and followed by a gap of 2. */
  function Prefix(usageColWidth: nat): nat {
    2 + usageColWidth + 2
  }

  /** `terminal_width.saturating_sub(prefix)`. */
  function Available(terminalWidth: nat, usageColWidth: nat): (r: nat)
    ensures terminalWidth >= Prefix(usageColWidth) ==> r + Prefix(usageColWidth) == terminalWidth
    ensures terminalWidth < Prefix(usageColWidth) ==> r == 0
  {
    if terminalWidth >= Prefix(usageColWidth) then terminalWidth - Prefix(usageColWidth) else 0
  }

  /** `render_help_text`: the rendered help and whether it spans several
      lines; the empty text asks for the block layout instead. */
  function RenderHelp(help: string, terminalWidth: nat, usageColWidth: nat): (r: (string, bool))
    ensures r.1 ==> r.0 != "" && '\n' !in help && Available(terminalWidth, usageColWidth) >= 10
  {
    if '\n' in help then ("", false)
    else
      var avail := Available(terminalWidth, usageColWidth);
      if avail < 10 then ("", false)
      else
        var ls := Wrap(help, avail);
        if |ls| == 1 && ls[0] == "" then ("", false)
        else (Join(ls, "\n" + Spaces(Prefix(usageColWidth))), |ls| > 1)
  }

  /** Help with a newline, or a column narrower than 10, falls back to the
      block layout; otherwise the wrapped lines are joined by a newline and
      the indentation of the help column, it is multi-line exactly when
      wrapping gave more than one line, and each line, placed after the
      prefix, fits the terminal unless it is one over-long word. */
  lemma RenderHelpSpec(help: string, terminalWidth: nat, usageColWidth: nat)
    ensures '\n' in help || Available(terminalWidth, usageColWidth) < 10 ==>
      RenderHelp(help, terminalWidth, usageColWidth) == ("", false)
    ensures '\n' !in help && Available(terminalWidth, usageColWidth) >= 10 ==>
      var ls := Wrap(help, Available(terminalWidth, usageColWidth));
      && RenderHelp(help, terminalWidth, usageColWidth).0 == Join(ls, "\n" + Spaces(Prefix(usageColWidth)))
      && (RenderHelp(help, terminalWidth, usageColWidth).1 <==> |ls| > 1)
      && forall k :: 0 <= k < |ls| ==> Prefix(usageColWidth) + |ls[k]| <= terminalWidth || NoSpace(ls[k])
  {
    var avail := Available(terminalWidth, usageColWidth);
    if '\n' !in help && avail >= 10 {
      WrapLines(help, avail);
    }
  }

  lemma JoinStep(ls: seq<string>, i: nat, sep: string)
    requires 1 <= i < |ls|
    ensures Join(ls[..i + 1], sep) == Join(ls[..i], sep) + sep + ls[i]
  {
    assert ls[..i + 1] == ls[..i] + [ls[i]];
    JoinSnoc(ls[..i], ls[i], sep);
  }

  /** `render_help_text`, building the result line by line. */
  method RenderHelpText(help: string, terminalWidth: nat, usageColWidth: nat) returns (text: string, multiline: bool)
    ensures (text, multiline) == RenderHelp(help, terminalWidth, usageColWidth)
  {
    if '\n' in help {
      return "", false;
    }
    var continuationIndent := Prefix(usageColWidth);
    var availableWidth := Available(terminalWidth, usageColWidth);
    if availableWidth < 10 {
      return "", false;
    }
    var wrapped := WrapText(help, availableWidth);
    if |wrapped| == 1 && wrapped[0] == "" {
      return "", false;
    }
    multiline := |wrapped| > 1;
    text := wrapped[0];
    assert wrapped[..1] == [wrapped[0]];
    for i := 1 to |wrapped|
      invariant text == Join(wrapped[..i], "\n" + Spaces(continuationIndent))
    {
      JoinStep(wrapped, i, "\n" + Spaces(continuationIndent));
      text := text + "\n" + Spaces(continuationIndent) + wrapped[i];
    }
    assert wrapped[..|wrapped|] == wrapped;
  }
}
