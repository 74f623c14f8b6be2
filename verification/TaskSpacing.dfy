/** hw4: which characters separate words, and how a printed line is spaced. */
module TaskSpacing {
  import opened Wrappers
  import opened TaskSyntax
  import opened TaskParser
  import opened TaskRoundTrip

  // ----- Two words and a character between them

  function OneWord(w: string): WordList {
    WordList(w, None)
  }

  /** One pipeline of one command. */
  function Simple(words: WordList, input: Option<string>, output: Option<string>): Pipeline {
    Pipeline(CommandList(Command(words), None), input, output)
  }

  /** What the line `u`, `c`, `v` says, by the code of `c`. */
  function Between(u: string, c: char, v: string): PipelineList {
    if c as int == 32 || 9 <= c as int <= 13 then
      PipelineList(Simple(WordList(u, Some(OneWord(v))), None, None), None)
    else if c == ';' then
      PipelineList(Simple(OneWord(u), None, None), Some(PipelineList(Simple(OneWord(v), None, None), None)))
    else if c == '|' then
      PipelineList(
        Pipeline(CommandList(Command(OneWord(u)), Some(CommandList(Command(OneWord(v)), None))), None, None), None)
    else if c == '<' then
      PipelineList(Simple(OneWord(u), Some(v), None), None)
    else if c == '>' then
      PipelineList(Simple(OneWord(u), None, Some(v)), None)
    else
      PipelineList(Simple(OneWord(u + [c] + v), None, None), None)
  }

  /** The code of `c` decides: space, tab, newline, vertical tab, form feed, return; a delimiter; or part of a word. */
  function TokensBetween(u: string, c: char, v: string): seq<Token> {
    if c as int == 32 || 9 <= c as int <= 13 then [Word(u), Word(v)]
    else if c == ';' || c == '|' || c == '<' || c == '>' then [Word(u), Delimiter(c), Word(v)]
    else [Word(u + [c] + v)]
  }

  lemma SpaceCodes(c: char)
    ensures IsSpace(c) <==> c as int == 32 || 9 <= c as int <= 13
  {
  }

  lemma LexSeparated(u: string, c: char, v: string)
    requires IsWord(u) && IsWord(v) && !IsPlain(c)
    ensures Lex(u + [c] + v) == if IsSpace(c) then [Word(u), Word(v)] else [Word(u), Delimiter(c), Word(v)]
  {
    var tail := [c] + v;
    assert u + [c] + v == u + tail && tail[1..] == v && v + "" == v;
    LexWord(v, "");
    LexWord(u, tail);
  }

  lemma LexJoined(w: string)
    requires IsWord(w)
    ensures Lex(w) == [Word(w)]
  {
    LexWord(w, "");
    assert w + "" == w;
  }

  lemma LexBetween(u: string, c: char, v: string)
    requires IsWord(u) && IsWord(v)
    ensures Lex(u + [c] + v) == TokensBetween(u, c, v)
  {
    SpaceCodes(c);
    if IsPlain(c) {
      LexJoined(u + [c] + v);
    } else {
      LexSeparated(u, c, v);
    }
  }

  lemma OnePipeline(u: string, v: string)
    ensures TaskOf([Word(u)]) == Some(Task(PipelineList(Simple(OneWord(u), None, None), None)))
    ensures TaskOf([Word(u), Word(v)]) ==
            Some(Task(PipelineList(Simple(WordList(u, Some(OneWord(v))), None, None), None)))
  {
    var ts := [Word(u), Word(v)];
    assert ts[1..] == [Word(v)] && ts[1..][1..] == [];
    assert WordsOf([]) == (None, []);
    assert WordsOf([Word(v)]) == (Some(OneWord(v)), []);
    assert WordsOf(ts) == (Some(WordList(u, Some(OneWord(v)))), []);
    assert [Word(u)][1..] == [];
  }

  lemma DelimitedWords(u: string, c: char, v: string)
    requires c == ';' || c == '|' || c == '<' || c == '>'
    ensures TaskOf([Word(u), Delimiter(c), Word(v)]) == Some(Task(Between(u, c, v)))
  {
    var ts := [Word(u), Delimiter(c), Word(v)];
    var last := [Word(v)];
    assert ts[1..] == [Delimiter(c)] + last && ts[1..][1..] == last && last[1..] == [];
    assert WordsOf(ts[1..]) == (None, ts[1..]);
    assert WordsOf(ts) == (Some(OneWord(u)), ts[1..]);
    assert WordsOf([]) == (None, []);
    assert WordsOf(last) == (Some(OneWord(v)), []);
    assert CommandsOf(last) == (Some(CommandList(Command(OneWord(v)), None)), []);
    assert PipelineOf(last) == (Some(Simple(OneWord(v), None, None)), []);
    assert PipelinesOf(last) == (Some(PipelineList(Simple(OneWord(v), None, None), None)), []);
  }

  /** Main result: for every character, what it does between two words. */
  lemma ParseBetween(u: string, c: char, v: string)
    requires IsWord(u) && IsWord(v)
    ensures ParseTask(u + [c] + v) == Some(Task(Between(u, c, v)))
  {
    ParseIsGrammar(u + [c] + v);
    LexBetween(u, c, v);
    OnePipeline(u, v);
    OnePipeline(u + [c] + v, v);
    if c == ';' || c == '|' || c == '<' || c == '>' {
      DelimitedWords(u, c, v);
    }
  }

  // ----- The printed form: one space between any two of its parts

  /** The parts of a printed task: words, paths and delimiters. */
  function WordsParts(l: WordList, tail: seq<string>): seq<string> {
    [l.first] + if l.rest.None? then tail else WordsParts(l.rest.value, tail)
  }

  function CommandsParts(l: CommandList, tail: seq<string>): seq<string> {
    WordsParts(l.first.words, if l.rest.None? then tail else ["|"] + CommandsParts(l.rest.value, tail))
  }

  function RedirectionParts(mark: string, path: Option<string>, tail: seq<string>): seq<string> {
    if path.None? then tail else [mark, path.value] + tail
  }

  function PipelineParts(p: Pipeline, tail: seq<string>): seq<string> {
    CommandsParts(p.commands, RedirectionParts("<", p.input, RedirectionParts(">", p.output, tail)))
  }

  function PipelinesParts(l: PipelineList, tail: seq<string>): seq<string> {
    PipelineParts(l.first, if l.rest.None? then tail else [";"] + PipelinesParts(l.rest.value, tail))
  }

  /** Each part with a space in front of it. */
  function Spaced(parts: seq<string>): string {
    if parts == [] then "" else " " + parts[0] + Spaced(parts[1..])
  }

  lemma SpacedFirst(part: string, tail: seq<string>)
    ensures Spaced([part] + tail) == " " + part + Spaced(tail)
  {
    assert ([part] + tail)[1..] == tail;
  }

  lemma {:induction false} WordsSpaced(l: WordList, text: string, tail: seq<string>)
    requires text == Spaced(tail)
    ensures " " + WordsText(l, text) == Spaced(WordsParts(l, tail))
  {
    if l.rest.None? {
      SpacedFirst(l.first, tail);
    } else {
      WordsSpaced(l.rest.value, text, tail);
      SpacedFirst(l.first, WordsParts(l.rest.value, tail));
    }
  }

  lemma SpacedMark(mark: char, text: string, tail: seq<string>)
    requires " " + text == Spaced(tail)
    ensures [' ', mark, ' '] + text == Spaced([[mark]] + tail)
  {
    SpacedFirst([mark], tail);
    assert [' ', mark, ' '] + text == " " + [mark] + (" " + text);
  }

  lemma {:induction false} CommandsSpaced(l: CommandList, text: string, tail: seq<string>)
    requires text == Spaced(tail)
    ensures " " + CommandsText(l, text) == Spaced(CommandsParts(l, tail))
  {
    if l.rest.None? {
      WordsSpaced(l.first.words, text, tail);
    } else {
      var more, parts := CommandsText(l.rest.value, text), CommandsParts(l.rest.value, tail);
      CommandsSpaced(l.rest.value, text, tail);
      SpacedMark('|', more, parts);
      WordsSpaced(l.first.words, " | " + more, ["|"] + parts);
    }
  }

  lemma RedirectionSpaced(mark: char, path: Option<string>, text: string, tail: seq<string>)
    requires text == Spaced(tail)
    ensures RedirectionText([' ', mark, ' '], path, text) == Spaced(RedirectionParts([mark], path, tail))
  {
    if path.Some? {
      SpacedFirst(path.value, tail);
      assert " " + (path.value + text) == " " + path.value + text;
      SpacedMark(mark, path.value + text, [path.value] + tail);
      assert [[mark], path.value] + tail == [[mark]] + ([path.value] + tail);
    }
  }

  lemma PipelineSpaced(p: Pipeline, text: string, tail: seq<string>)
    requires text == Spaced(tail)
    ensures " " + PipelineText(p, text) == Spaced(PipelineParts(p, tail))
  {
    RedirectionSpaced('>', p.output, text, tail);
    var text1, tail1 := RedirectionText(" > ", p.output, text), RedirectionParts(">", p.output, tail);
    RedirectionSpaced('<', p.input, text1, tail1);
    CommandsSpaced(p.commands, RedirectionText(" < ", p.input, text1), RedirectionParts("<", p.input, tail1));
  }

  lemma {:induction false} PipelinesSpaced(l: PipelineList, text: string, tail: seq<string>)
    requires text == Spaced(tail)
    ensures " " + PipelinesText(l, text) == Spaced(PipelinesParts(l, tail))
  {
    if l.rest.None? {
      PipelineSpaced(l.first, text, tail);
    } else {
      var more, parts := PipelinesText(l.rest.value, text), PipelinesParts(l.rest.value, tail);
      PipelinesSpaced(l.rest.value, text, tail);
      SpacedMark(';', more, parts);
      PipelineSpaced(l.first, " ; " + more, [";"] + parts);
    }
  }

  /** Printing puts single spaces between words, paths and delimiters, and nothing at the ends. */
  lemma PrintIsSpaced(t: Task)
    ensures " " + Unparse(t) == Spaced(PipelinesParts(t.pipelines, []))
  {
    PipelinesSpaced(t.pipelines, "", []);
  }
}
