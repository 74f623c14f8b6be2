/** hw4: print-then-parse on every well-formed task, and parse-then-print on every accepted line. */
module TaskRoundTrip {
  import opened Wrappers
  import opened TaskSyntax
  import opened TaskParser

  // ----- The tokens of a task, followed by `tail`

  function WordsTokens(l: WordList, tail: seq<Token>): seq<Token> {
    [Word(l.first)] + if l.rest.None? then tail else WordsTokens(l.rest.value, tail)
  }

  function CommandsTokens(l: CommandList, tail: seq<Token>): seq<Token> {
    WordsTokens(l.first.words, if l.rest.None? then tail else [Delimiter('|')] + CommandsTokens(l.rest.value, tail))
  }

  function PathTokens(path: string, tail: seq<Token>): seq<Token> {
    if path == "" then tail else [Word(path)] + tail
  }

  function RedirectionTokens(mark: char, path: Option<string>, tail: seq<Token>): seq<Token> {
    if path.None? then tail else [Delimiter(mark)] + PathTokens(path.value, tail)
  }

  function PipelineTokens(p: Pipeline, tail: seq<Token>): seq<Token> {
    CommandsTokens(p.commands, RedirectionTokens('<', p.input, RedirectionTokens('>', p.output, tail)))
  }

  function PipelinesTokens(l: PipelineList, tail: seq<Token>): seq<Token> {
    PipelineTokens(l.first, if l.rest.None? then tail else [Delimiter(';')] + PipelinesTokens(l.rest.value, tail))
  }

  // ----- Lexing printed text gives these tokens

  predicate Edge(tail: string) {
    tail == "" || !IsPlain(tail[0])
  }

  lemma {:induction false} PlainPrefixOf(w: string, tail: string)
    requires AllPlain(w) && Edge(tail)
    ensures PlainPrefix(w + tail) == w
  {
    if w == "" {
      assert w + tail == tail;
    } else {
      assert (w + tail)[1..] == w[1..] + tail;
      PlainPrefixOf(w[1..], tail);
    }
  }

  lemma LexWord(w: string, tail: string)
    requires AllPlain(w) && Edge(tail)
    ensures Lex(w + tail) == PathTokens(w, Lex(tail))
  {
    PlainPrefixOf(w, tail);
    if w == "" {
      assert w + tail == tail;
    } else {
      assert (w + tail)[|w|..] == tail;
    }
  }

  lemma {:induction false} LexWords(l: WordList, tail: string)
    requires GoodWords(l) && Edge(tail)
    ensures Lex(WordsText(l, tail)) == WordsTokens(l, Lex(tail))
  {
    if l.rest.None? {
      LexWord(l.first, tail);
    } else {
      var more := WordsText(l.rest.value, tail);
      LexWords(l.rest.value, tail);
      LexWord(l.first, " " + more);
      assert (" " + more)[1..] == more;
    }
  }

  lemma LexMark(mark: char, text: string)
    requires IsDelimiter(mark)
    ensures Lex([' ', mark, ' '] + text) == [Delimiter(mark)] + Lex(text)
  {
    var s := [' ', mark, ' '] + text;
    var s1, s2 := [mark, ' '] + text, [' '] + text;
    assert s[1..] == s1 && s1[1..] == s2 && s2[1..] == text;
    assert !IsSpace(mark);
    assert Lex(s) == Lex(s1);
    assert Lex(s1) == [Delimiter(mark)] + Lex(s2);
  }

  lemma {:induction false} LexCommands(l: CommandList, tail: string)
    requires GoodCommands(l) && Edge(tail)
    ensures Lex(CommandsText(l, tail)) == CommandsTokens(l, Lex(tail))
  {
    if l.rest.None? {
      LexWords(l.first.words, tail);
    } else {
      var more := CommandsText(l.rest.value, tail);
      LexCommands(l.rest.value, tail);
      LexMark('|', more);
      LexWords(l.first.words, " | " + more);
    }
  }

  lemma LexRedirection(mark: char, path: Option<string>, tail: string)
    requires IsDelimiter(mark) && Edge(tail) && (path.Some? ==> AllPlain(path.value))
    ensures Edge(RedirectionText([' ', mark, ' '], path, tail))
    ensures Lex(RedirectionText([' ', mark, ' '], path, tail)) == RedirectionTokens(mark, path, Lex(tail))
  {
    if path.Some? {
      LexMark(mark, path.value + tail);
      LexWord(path.value, tail);
    }
  }

  lemma LexPipeline(p: Pipeline, tail: string)
    requires GoodPipeline(p) && Edge(tail)
    ensures Lex(PipelineText(p, tail)) == PipelineTokens(p, Lex(tail))
  {
    LexRedirection('>', p.output, tail);
    LexRedirection('<', p.input, RedirectionText(" > ", p.output, tail));
    LexCommands(p.commands, RedirectionText(" < ", p.input, RedirectionText(" > ", p.output, tail)));
  }

  lemma {:induction false} LexPipelines(l: PipelineList, tail: string)
    requires GoodPipelines(l) && Edge(tail)
    ensures Lex(PipelinesText(l, tail)) == PipelinesTokens(l, Lex(tail))
  {
    if l.rest.None? {
      LexPipeline(l.first, tail);
    } else {
      var more := PipelinesText(l.rest.value, tail);
      LexPipelines(l.rest.value, tail);
      LexMark(';', more);
      LexPipeline(l.first, " ; " + more);
    }
  }

  // ----- The grammar reads these tokens back

  lemma {:induction false} WordsBack(l: WordList, ts: seq<Token>)
    requires ts == [] || ts[0].Delimiter?
    ensures WordsOf(WordsTokens(l, ts)) == (Some(l), ts)
  {
    if l.rest.None? {
    } else {
      WordsBack(l.rest.value, ts);
    }
  }

  lemma {:induction false} CommandsBack(l: CommandList, ts: seq<Token>)
    requires ts == [] || (ts[0].Delimiter? && ts[0].mark != '|')
    ensures CommandsOf(CommandsTokens(l, ts)) == (Some(l), ts)
  {
    if l.rest.None? {
      WordsBack(l.first.words, ts);
    } else {
      CommandsBack(l.rest.value, ts);
      WordsBack(l.first.words, [Delimiter('|')] + CommandsTokens(l.rest.value, ts));
    }
  }

  /** With two redirections the grammar stops in front of the second one. */
  lemma PipelineBack(p: Pipeline, ts: seq<Token>)
    requires ts == [] || ts[0] == Delimiter(';')
    ensures PipelineOf(PipelineTokens(p, ts)) ==
      if p.input.Some? && p.output.Some? then (Some(p.(output := None)), RedirectionTokens('>', p.output, ts))
      else (Some(p), ts)
  {
    CommandsBack(p.commands, RedirectionTokens('<', p.input, RedirectionTokens('>', p.output, ts)));
  }

  lemma {:induction false} PipelinesBack(l: PipelineList)
    ensures SingleRedirections(l) ==> PipelinesOf(PipelinesTokens(l, [])) == (Some(l), [])
    ensures !SingleRedirections(l) ==> PipelinesOf(PipelinesTokens(l, [])).1 != []
  {
    if l.rest.None? {
      PipelineBack(l.first, []);
    } else {
      PipelinesBack(l.rest.value);
      PipelineBack(l.first, [Delimiter(';')] + PipelinesTokens(l.rest.value, []));
    }
  }

  /**
   * Main result. Printing a well-formed task and parsing the text gives the task back if no pipeline has both
   * an input and an output redirection, and fails otherwise, although the documented syntax allows both.
   */
  lemma PrintThenParse(t: Task)
    requires WellFormed(t)
    ensures ParseTask(Unparse(t)) == if SingleRedirections(t.pipelines) then Some(t) else None
  {
    ParseIsGrammar(Unparse(t));
    LexPipelines(t.pipelines, "");
    PipelinesBack(t.pipelines);
  }

  /** Whatever was accepted once is printed in a form that parses to the same task. */
  lemma PrintIsFixpoint(s: string)
    requires ParseTask(s).Some?
    ensures ParseTask(Unparse(ParseTask(s).value)) == ParseTask(s)
  {
    PrintThenParse(ParseTask(s).value);
  }

  // ----- What an accepted line and its printed form have in common

  /** Drops every '|' that no word follows, and a ';' at the very end. */
  function Tidy(ts: seq<Token>): seq<Token> {
    if ts == [] then []
    else if Next(ts, '|') && (|ts| == 1 || ts[1].Delimiter?) then Tidy(ts[1..])
    else if ts == [Delimiter(';')] then []
    else [ts[0]] + Tidy(ts[1..])
  }

  lemma {:induction false} TidyWords(ts: seq<Token>)
    requires WordsOf(ts).0.Some?
    ensures var (l, ts1) := WordsOf(ts);
            Tidy(ts) == WordsTokens(l.value, Tidy(ts1)) && (ts1 == [] || ts1[0].Delimiter?)
    ensures NoEmptyWords(ts) ==> NoEmptyWords(WordsOf(ts).1)
    decreases |ts|
  {
    if WordsOf(ts[1..]).0.None? {
    } else {
      TidyWords(ts[1..]);
    }
  }

  lemma {:induction false} TidyCommands(ts: seq<Token>)
    requires CommandsOf(ts).0.Some?
    ensures var (l, ts1) := CommandsOf(ts);
            Tidy(ts) == CommandsTokens(l.value, Tidy(ts1)) && (ts1 == [] || ts1[0].Delimiter?)
    ensures NoEmptyWords(ts) ==> NoEmptyWords(CommandsOf(ts).1)
    decreases |ts|
  {
    TidyWords(ts);
    var (words, ts1) := WordsOf(ts);
    if Next(ts1, '|') && CommandsOf(ts1[1..]).0.Some? {
      TidyCommands(ts1[1..]);
    }
  }

  predicate NoEmptyWords(ts: seq<Token>) {
    forall i | 0 <= i < |ts| :: ts[i] != Word("")
  }

  lemma {:induction false} LexNoEmptyWords(s: string)
    ensures NoEmptyWords(Lex(s))
    decreases |s|
  {
    if s == "" {
    } else {
      LexNoEmptyWords(s[1..]);
      if IsPlain(s[0]) {
        LexNoEmptyWords(s[|PlainPrefix(s)|..]);
      }
    }
  }

  lemma TidyPipeline(ts: seq<Token>)
    requires PipelineOf(ts).0.Some? && NoEmptyWords(ts)
    ensures var (p, ts1) := PipelineOf(ts);
            Tidy(ts) == PipelineTokens(p.value, Tidy(ts1)) && NoEmptyWords(ts1)
  {
    TidyCommands(ts);
    var ts1 := CommandsOf(ts).1;
    if Next(ts1, '<') || Next(ts1, '>') {
      TidyRedirection(ts1[0].mark, ts1);
    }
  }

  lemma TidyRedirection(mark: char, ts: seq<Token>)
    requires Next(ts, mark) && (mark == '<' || mark == '>') && NoEmptyWords(ts)
    ensures var (path, rest) := PathOf(ts[1..]);
            Tidy(ts) == RedirectionTokens(mark, Some(path), Tidy(rest)) && NoEmptyWords(rest)
  {
    assert Tidy(ts) == [Delimiter(mark)] + Tidy(ts[1..]);
    if ts[1..] != [] && ts[1..][0].Word? {
      assert ts[1..][0] == ts[1];
    }
  }

  lemma {:induction false} TidyPipelines(ts: seq<Token>)
    requires PipelinesOf(ts).0.Some? && PipelinesOf(ts).1 == [] && NoEmptyWords(ts)
    ensures Tidy(ts) == PipelinesTokens(PipelinesOf(ts).0.value, [])
    decreases |ts|
  {
    TidyPipeline(ts);
    var (p, ts1) := PipelineOf(ts);
    if Next(ts1, ';') {
      assert ts1 == [Delimiter(';')] + ts1[1..];
      if PipelinesOf(ts1[1..]).0.Some? {
        TidyPipelines(ts1[1..]);
      }
    }
  }

  /** The printed form of an accepted line has the tokens of the line, without dangling separators. */
  lemma {:induction false} ParseThenPrint(s: string)
    requires ParseTask(s).Some?
    ensures Lex(Unparse(ParseTask(s).value)) == Tidy(Lex(s))
  {
    ParseIsGrammar(s);
    LexPipelines(ParseTask(s).value.pipelines, "");
    LexNoEmptyWords(s);
    TidyPipelines(Lex(s));
  }
}
