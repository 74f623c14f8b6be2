/** hw4: tasks, their printed form, and the characters and tokens it is made of. */
module TaskSyntax {
  import opened Wrappers

  // The program's linked lists are never empty; `rest` is NULL in the last cell.

  datatype WordList = WordList(first: string, rest: Option<WordList>)

  datatype Command = Command(words: WordList)

  datatype CommandList = CommandList(first: Command, rest: Option<CommandList>)

  datatype Pipeline = Pipeline(commands: CommandList, input: Option<string>, output: Option<string>)

  datatype PipelineList = PipelineList(first: Pipeline, rest: Option<PipelineList>)

  datatype Task = Task(pipelines: PipelineList)

  // ----- Characters

  /** isspace in the C locale */
  predicate IsSpace(c: char) {
    c == ' ' || c == '\t' || c == '\n' || c == '\U{0B}' || c == '\U{0C}' || c == '\r'
  }

  /** ISDELIM */
  predicate IsDelimiter(c: char) {
    c == ';' || c == '|' || c == '<' || c == '>'
  }

  predicate IsPlain(c: char) {
    !IsSpace(c) && !IsDelimiter(c)
  }

  predicate AllPlain(w: string) {
    forall i | 0 <= i < |w| :: IsPlain(w[i])
  }

  // ----- Well-formed tasks

  predicate IsWord(w: string) {
    w != "" && AllPlain(w)
  }

  predicate GoodWords(l: WordList) {
    IsWord(l.first) && (l.rest.Some? ==> GoodWords(l.rest.value))
  }

  predicate GoodCommands(l: CommandList) {
    GoodWords(l.first.words) && (l.rest.Some? ==> GoodCommands(l.rest.value))
  }

  /** The parser also delivers empty redirection paths. */
  predicate GoodPipeline(p: Pipeline) {
    && GoodCommands(p.commands)
    && (p.input.Some? ==> AllPlain(p.input.value))
    && (p.output.Some? ==> AllPlain(p.output.value))
  }

  predicate GoodPipelines(l: PipelineList) {
    GoodPipeline(l.first) && (l.rest.Some? ==> GoodPipelines(l.rest.value))
  }

  predicate WellFormed(t: Task) {
    GoodPipelines(t.pipelines)
  }

  predicate SingleRedirections(l: PipelineList) {
    (l.first.input.None? || l.first.output.None?) && (l.rest.Some? ==> SingleRedirections(l.rest.value))
  }

  // ----- Printing: the text of a value, followed by `tail`

  function WordsText(l: WordList, tail: string): string {
    l.first + if l.rest.None? then tail else " " + WordsText(l.rest.value, tail)
  }

  function CommandsText(l: CommandList, tail: string): string {
    WordsText(l.first.words, if l.rest.None? then tail else " | " + CommandsText(l.rest.value, tail))
  }

  function RedirectionText(mark: string, path: Option<string>, tail: string): string {
    if path.None? then tail else mark + (path.value + tail)
  }

  function PipelineText(p: Pipeline, tail: string): string {
    CommandsText(p.commands, RedirectionText(" < ", p.input, RedirectionText(" > ", p.output, tail)))
  }

  function PipelinesText(l: PipelineList, tail: string): string {
    PipelineText(l.first, if l.rest.None? then tail else " ; " + PipelinesText(l.rest.value, tail))
  }

  function Unparse(t: Task): string {
    PipelinesText(t.pipelines, "")
  }
}
