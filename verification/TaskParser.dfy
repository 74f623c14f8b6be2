/** hw4: the recursive-descent parser on strings, the token grammar behind it, and print-then-parse. */
module TaskParser {
  import opened Wrappers
  import opened TaskSyntax

  // ----- The parser: each function returns its result and the rest of the line

  function SkipSpaces(s: string): (r: string)
    ensures |r| <= |s|
    ensures r != "" ==> !IsSpace(r[0])
  {
    if s != "" && IsSpace(s[0]) then SkipSpaces(s[1..]) else s
  }

  /** The longest prefix of plain characters. */
  function PlainPrefix(s: string): (w: string)
    ensures w <= s && AllPlain(w)
    ensures |w| < |s| ==> !IsPlain(s[|w|])
  {
    if s == "" || !IsPlain(s[0]) then "" else [s[0]] + PlainPrefix(s[1..])
  }

  function ParseWord(s: string): (r: (Option<string>, string))
    ensures |r.1| <= |s|
    ensures r.0.Some? ==> |r.1| < |s| && IsWord(r.0.value)
  {
    var w := PlainPrefix(s);
    var rest := s[|w|..];
    if w == "" then (None, s)
    else (Some(w), if rest != "" && IsSpace(rest[0]) then rest[1..] else rest)
  }

  function ParseWords(s: string): (r: (Option<WordList>, string))
    ensures |r.1| <= |s|
    ensures r.0.Some? ==> |r.1| < |s| && GoodWords(r.0.value)
    decreases |s|
  {
    var (word, s1) := ParseWord(SkipSpaces(s));
    if word.None? then (None, s1)
    else if s1 != "" && !IsDelimiter(s1[0]) then
      var (rest, s2) := ParseWords(s1);
      (Some(WordList(word.value, rest)), s2)
    else (Some(WordList(word.value, None)), s1)
  }

  function ParseCommand(s: string): (r: (Option<Command>, string))
    ensures |r.1| <= |s|
    ensures r.0.Some? ==> |r.1| < |s| && GoodWords(r.0.value.words)
  {
    var (words, s1) := ParseWords(s);
    (if words.None? then None else Some(Command(words.value)), s1)
  }

  function ParseCommands(s: string): (r: (Option<CommandList>, string))
    ensures |r.1| <= |s|
    ensures r.0.Some? ==> |r.1| < |s| && GoodCommands(r.0.value)
    decreases |s|
  {
    var (command, s1) := ParseCommand(SkipSpaces(s));
    if command.None? then (None, s1)
    else
      var s2 := SkipSpaces(s1);
      if s2 != "" && s2[0] == '|' then
        var (rest, s3) := ParseCommands(s2[1..]);
        (Some(CommandList(command.value, rest)), s3)
      else (Some(CommandList(command.value, None)), s2)
  }

  function ParsePath(s: string): (r: (string, string))
    ensures |r.1| <= |s| && AllPlain(r.0)
  {
    var s1 := SkipSpaces(s);
    var path := PlainPrefix(s1);
    (path, s1[|path|..])
  }

  /** At most one redirection: input path, output path, rest of the line. */
  function ParseRedirection(s: string): (r: (Option<string>, Option<string>, string))
    ensures |r.2| <= |s|
    ensures r.0.None? || r.1.None?
    ensures (r.0.Some? ==> AllPlain(r.0.value)) && (r.1.Some? ==> AllPlain(r.1.value))
  {
    var s1 := SkipSpaces(s);
    if s1 != "" && s1[0] == '<' then
      var (path, s2) := ParsePath(s1[1..]);
      (Some(path), None, s2)
    else if s1 != "" && s1[0] == '>' then
      var (path, s2) := ParsePath(s1[1..]);
      (None, Some(path), s2)
    else (None, None, s1)
  }

  function ParsePipeline(s: string): (r: (Option<Pipeline>, string))
    ensures |r.1| <= |s|
    ensures r.0.Some? ==>
      |r.1| < |s| && GoodPipeline(r.0.value) && (r.0.value.input.None? || r.0.value.output.None?)
  {
    var (commands, s1) := ParseCommands(s);
    if commands.None? then (None, s1)
    else
      var (input, output, s2) := ParseRedirection(s1);
      (Some(Pipeline(commands.value, input, output)), s2)
  }

  function ParsePipelines(s: string): (r: (Option<PipelineList>, string))
    ensures |r.1| <= |s|
    ensures r.0.Some? ==> |r.1| < |s| && GoodPipelines(r.0.value) && SingleRedirections(r.0.value)
    decreases |s|
  {
    var (pipeline, s1) := ParsePipeline(SkipSpaces(s));
    if pipeline.None? then (None, s1)
    else
      var s2 := SkipSpaces(s1);
      if s2 != "" && s2[0] == ';' then
        var (rest, s3) := ParsePipelines(s2[1..]);
        (Some(PipelineList(pipeline.value, rest)), s3)
      else (Some(PipelineList(pipeline.value, None)), s2)
  }

  /** A successful parse always yields a well-formed task with at most one redirection per pipeline. */
  function ParseTask(s: string): (t: Option<Task>)
    ensures t.Some? ==> WellFormed(t.value) && SingleRedirections(t.value.pipelines)
  {
    var (pipelines, s1) := ParsePipelines(s);
    if pipelines.Some? && SkipSpaces(s1) == "" then Some(Task(pipelines.value)) else None
  }

  // ----- Tokens

  datatype Token = Word(text: string) | Delimiter(mark: char)

  function Lex(s: string): seq<Token>
    decreases |s|
  {
    if s == "" then []
    else if IsSpace(s[0]) then Lex(s[1..])
    else if IsDelimiter(s[0]) then [Delimiter(s[0])] + Lex(s[1..])
    else [Word(PlainPrefix(s))] + Lex(s[|PlainPrefix(s)|..])
  }

  /** The grammar on tokens; a missing operand ends its list. */
  function WordsOf(ts: seq<Token>): (r: (Option<WordList>, seq<Token>))
    ensures |r.1| <= |ts|
    decreases |ts|
  {
    if ts == [] || ts[0].Delimiter? then (None, ts)
    else
      var (rest, ts1) := WordsOf(ts[1..]);
      (Some(WordList(ts[0].text, rest)), ts1)
  }

  function CommandsOf(ts: seq<Token>): (r: (Option<CommandList>, seq<Token>))
    ensures |r.1| <= |ts|
    decreases |ts|
  {
    var (words, ts1) := WordsOf(ts);
    if words.None? then (None, ts1)
    else if Next(ts1, '|') then
      var (rest, ts2) := CommandsOf(ts1[1..]);
      (Some(CommandList(Command(words.value), rest)), ts2)
    else (Some(CommandList(Command(words.value), None)), ts1)
  }

  predicate Next(ts: seq<Token>, mark: char) {
    ts != [] && ts[0] == Delimiter(mark)
  }

  function PathOf(ts: seq<Token>): (r: (string, seq<Token>))
    ensures |r.1| <= |ts|
  {
    if ts != [] && ts[0].Word? then (ts[0].text, ts[1..]) else ("", ts)
  }

  function PipelineOf(ts: seq<Token>): (r: (Option<Pipeline>, seq<Token>))
    ensures |r.1| <= |ts|
  {
    var (commands, ts1) := CommandsOf(ts);
    if commands.None? then (None, ts1)
    else if Next(ts1, '<') then
      var (path, ts2) := PathOf(ts1[1..]);
      (Some(Pipeline(commands.value, Some(path), None)), ts2)
    else if Next(ts1, '>') then
      var (path, ts2) := PathOf(ts1[1..]);
      (Some(Pipeline(commands.value, None, Some(path))), ts2)
    else (Some(Pipeline(commands.value, None, None)), ts1)
  }

  function PipelinesOf(ts: seq<Token>): (r: (Option<PipelineList>, seq<Token>))
    ensures |r.1| <= |ts|
    decreases |ts|
  {
    var (pipeline, ts1) := PipelineOf(ts);
    if pipeline.None? then (None, ts1)
    else if Next(ts1, ';') then
      var (rest, ts2) := PipelinesOf(ts1[1..]);
      (Some(PipelineList(pipeline.value, rest)), ts2)
    else (Some(PipelineList(pipeline.value, None)), ts1)
  }

  function TaskOf(ts: seq<Token>): Option<Task> {
    var (pipelines, ts1) := PipelinesOf(ts);
    if pipelines.Some? && ts1 == [] then Some(Task(pipelines.value)) else None
  }

  // ----- The parser sees nothing but the tokens

  lemma {:induction false} LexSkip(s: string)
    ensures Lex(SkipSpaces(s)) == Lex(s)
    ensures SkipSpaces(s) == "" <==> Lex(s) == []
    ensures SkipSpaces(SkipSpaces(s)) == SkipSpaces(s)
  {
    if s == "" || !IsSpace(s[0]) {
    } else {
      LexSkip(s[1..]);
    }
  }

  lemma {:induction false} ParseWordsLex(s: string)
    ensures WordsOf(Lex(s)) == (ParseWords(s).0, Lex(ParseWords(s).1))
    decreases |s|
  {
    LexSkip(s);
    var s0 := SkipSpaces(s);
    var (word, s1) := ParseWord(s0);
    if word.None? {
    } else {
      var rest := s0[|word.value|..];
      assert Lex(s0) == [Word(word.value)] + Lex(rest);
      assert Lex(rest) == Lex(s1);
      ParseWordsLex(s1);
    }
  }

  lemma {:induction false} ParseCommandsLex(s: string)
    ensures CommandsOf(Lex(s)) == (ParseCommands(s).0, Lex(ParseCommands(s).1))
    decreases |s|
  {
    LexSkip(s);
    ParseWordsLex(SkipSpaces(s));
    var (words, s1) := ParseWords(SkipSpaces(s));
    if words.None? {
    } else {
      LexSkip(s1);
      var s2 := SkipSpaces(s1);
      if s2 != "" && s2[0] == '|' {
        ParseCommandsLex(s2[1..]);
      }
    }
  }

  lemma ParsePathLex(s: string)
    ensures PathOf(Lex(s)) == (ParsePath(s).0, Lex(ParsePath(s).1))
  {
    LexSkip(s);
  }

  lemma ParsePipelineLex(s: string)
    ensures PipelineOf(Lex(s)) == (ParsePipeline(s).0, Lex(ParsePipeline(s).1))
  {
    ParseCommandsLex(s);
    var (commands, s1) := ParseCommands(s);
    LexSkip(s1);
    var s2 := SkipSpaces(s1);
    if s2 != "" {
      ParsePathLex(s2[1..]);
    }
  }

  lemma {:induction false} ParsePipelinesLex(s: string)
    ensures PipelinesOf(Lex(s)) == (ParsePipelines(s).0, Lex(ParsePipelines(s).1))
    decreases |s|
  {
    LexSkip(s);
    ParsePipelineLex(SkipSpaces(s));
    var (pipeline, s1) := ParsePipeline(SkipSpaces(s));
    if pipeline.None? {
    } else {
      LexSkip(s1);
      var s2 := SkipSpaces(s1);
      if s2 != "" && s2[0] == ';' {
        ParsePipelinesLex(s2[1..]);
      }
    }
  }

  /** For every line, parsing is lexing followed by the token grammar: spacing never matters. */
  lemma ParseIsGrammar(s: string)
    ensures ParseTask(s) == TaskOf(Lex(s))
  {
    ParsePipelinesLex(s);
    LexSkip(ParsePipelines(s).1);
  }
}
