/**
 * hw4: the parser as it runs, advancing a cursor over a NUL-terminated line and poking NULs into it.
 * Every method leaves the line as it found it and agrees with the parser on strings.
 */
module LineParser {
  import opened Wrappers
  import opened TaskSyntax
  import opened TaskParser

  const NUL := '\0'

  class Line {
    const buf: array<char>
    var pos: nat
    ghost const text: string

    /** Between any two calls the buffer holds exactly the original line and its NUL. */
    ghost predicate Valid()
      reads this, buf
    {
      pos <= |text| && NUL !in text && buf[..] == text + [NUL]
    }

    /** The unread part of the line. */
    ghost function Rest(): string
      requires pos <= |text|
      reads this
    {
      text[pos..]
    }

    constructor (text: string)
      requires NUL !in text
      ensures Valid() && Rest() == text && this.text == text && fresh(buf)
    {
      buf := new char[|text| + 1](i requires 0 <= i < |text| + 1 => if i < |text| then text[i] else NUL);
      pos, this.text := 0, text;
    }

    /** The character under the cursor. */
    method Peek() returns (c: char)
      requires Valid()
      ensures Rest() == "" ==> c == NUL
      ensures Rest() != "" ==> c == Rest()[0] && c != NUL
    {
      c := buf[pos];
      assert c == buf[..][pos];
    }

    method Advance()
      requires Valid() && Rest() != ""
      modifies this`pos
      ensures Valid() && Rest() == old(Rest())[1..] && pos == old(pos) + 1
    {
      pos := pos + 1;
    }

    method SkipSpacesHere()
      requires Valid()
      modifies this`pos
      ensures Valid() && Rest() == SkipSpaces(old(Rest())) && old(pos) <= pos
    {
      var c := Peek();
      while IsSpace(c)
        invariant Valid() && old(pos) <= pos && SkipSpaces(Rest()) == SkipSpaces(old(Rest()))
        invariant c == if Rest() == "" then NUL else Rest()[0]
        decreases |text| - pos
      {
        Advance();
        c := Peek();
      }
    }

    /** strdup: copies up to the first NUL at or after `from`. */
    method Strdup(from: nat, ghost end: nat) returns (s: string)
      requires from <= end < buf.Length && buf[end] == NUL && forall k | from <= k < end :: buf[k] != NUL
      ensures s == buf[from..end]
    {
      var i := from;
      s := "";
      while buf[i] != NUL
        invariant from <= i <= end && s == buf[from..i]
        decreases end - i
      {
        s := s + [buf[i]];
        i := i + 1;
      }
    }

    /** Moves over plain characters, then copies them out by ending the line there for a moment. */
    method TakePlain() returns (w: string)
      requires Valid()
      modifies this`pos, buf
      ensures Valid() && w == PlainPrefix(old(Rest())) && pos == old(pos) + |w|
      ensures |w| <= |old(Rest())| && Rest() == old(Rest())[|w|..]
    {
      ghost var rest := Rest();
      var start := pos;
      var c := Peek();
      while c != NUL && !IsSpace(c) && !IsDelimiter(c)
        invariant Valid() && start <= pos && forall i | 0 <= i < pos - start :: IsPlain(rest[i])
        invariant c == if Rest() == "" then NUL else Rest()[0]
        decreases |text| - pos
      {
        Advance();
        c := Peek();
      }
      PlainPrefixIs(rest, pos - start);
      buf[pos] := NUL;
      forall k | start <= k < pos ensures buf[k] == text[k] != NUL {
        assert buf[k] == old(buf[..])[k];
      }
      w := Strdup(start, pos);
      assert w == rest[..pos - start];
      buf[pos] := c;
    }

    method ParseWordHere() returns (r: Option<string>)
      requires Valid()
      modifies this`pos, buf
      ensures Valid() && old(pos) <= pos
      ensures (r, Rest()) == ParseWord(old(Rest()))
    {
      var w := TakePlain();
      if w == "" {
        return None;
      }
      var c := Peek();
      if IsSpace(c) {
        Advance();
      }
      return Some(w);
    }

    method ParseWordListHere() returns (r: Option<WordList>)
      requires Valid()
      modifies this`pos, buf
      ensures Valid() && old(pos) <= pos
      ensures (r, Rest()) == ParseWords(old(Rest()))
      decreases |text| - pos
    {
      SkipSpacesHere();
      var word := ParseWordHere();
      if word.None? {
        return None;
      }
      var rest: Option<WordList> := None;
      var c := Peek();
      if c != NUL && !IsDelimiter(c) {
        rest := ParseWordListHere();
      }
      return Some(WordList(word.value, rest));
    }

    method ParseCommandHere() returns (r: Option<Command>)
      requires Valid()
      modifies this`pos, buf
      ensures Valid() && old(pos) <= pos
      ensures (r, Rest()) == ParseCommand(old(Rest()))
    {
      var words := ParseWordListHere();
      if words.None? {
        return None;
      }
      return Some(Command(words.value));
    }

    method ParseCommandListHere() returns (r: Option<CommandList>)
      requires Valid()
      modifies this`pos, buf
      ensures Valid() && old(pos) <= pos
      ensures (r, Rest()) == ParseCommands(old(Rest()))
      decreases |text| - pos
    {
      SkipSpacesHere();
      var command := ParseCommandHere();
      if command.None? {
        return None;
      }
      SkipSpacesHere();
      var rest: Option<CommandList> := None;
      var c := Peek();
      if c == '|' {
        Advance();
        rest := ParseCommandListHere();
      }
      return Some(CommandList(command.value, rest));
    }

    method ParsePathHere() returns (path: string)
      requires Valid()
      modifies this`pos, buf
      ensures Valid() && old(pos) <= pos
      ensures (path, Rest()) == ParsePath(old(Rest()))
    {
      SkipSpacesHere();
      path := TakePlain();
    }

    method ParseRedirectionHere() returns (input: Option<string>, output: Option<string>)
      requires Valid()
      modifies this`pos, buf
      ensures Valid() && old(pos) <= pos
      ensures (input, output, Rest()) == ParseRedirection(old(Rest()))
    {
      input, output := None, None;
      SkipSpacesHere();
      var c := Peek();
      if c == '<' || c == '>' {
        Advance();
        var path := ParsePathHere();
        if c == '<' {
          input := Some(path);
        } else {
          output := Some(path);
        }
      }
    }

    method ParsePipelineHere() returns (r: Option<Pipeline>)
      requires Valid()
      modifies this`pos, buf
      ensures Valid() && old(pos) <= pos
      ensures (r, Rest()) == ParsePipeline(old(Rest()))
    {
      var commands := ParseCommandListHere();
      if commands.None? {
        return None;
      }
      var input, output := ParseRedirectionHere();
      return Some(Pipeline(commands.value, input, output));
    }

    method ParsePipelineListHere() returns (r: Option<PipelineList>)
      requires Valid()
      modifies this`pos, buf
      ensures Valid() && old(pos) <= pos
      ensures (r, Rest()) == ParsePipelines(old(Rest()))
      decreases |text| - pos
    {
      SkipSpacesHere();
      var pipeline := ParsePipelineHere();
      if pipeline.None? {
        return None;
      }
      SkipSpacesHere();
      var rest: Option<PipelineList> := None;
      var c := Peek();
      if c == ';' {
        Advance();
        rest := ParsePipelineListHere();
      }
      return Some(PipelineList(pipeline.value, rest));
    }

    /** `parse_task`: leaves the line unchanged, never moves past its NUL, and decides as ParseTask does. */
    method ParseTaskHere() returns (r: Option<Task>)
      requires Valid()
      modifies this`pos, buf
      ensures Valid() && old(pos) <= pos
      ensures r == ParseTask(old(Rest()))
    {
      var pipelines := ParsePipelineListHere();
      SkipSpacesHere();
      var c := Peek();
      if pipelines.None? || c != NUL {
        return None;
      }
      return Some(Task(pipelines.value));
    }
  }

  lemma {:induction false} PlainPrefixIs(s: string, n: nat)
    requires n <= |s| && (forall i | 0 <= i < n :: IsPlain(s[i])) && (n < |s| ==> !IsPlain(s[n]))
    ensures PlainPrefix(s) == s[..n]
  {
    if n == 0 {
    } else {
      PlainPrefixIs(s[1..], n - 1);
    }
  }
}
