/** The command-line half of `process_command` (main.py:157-171): the first
    word picks a handler, and the rest of the line becomes the text of the
    handler's argument list. */
module Commands {
  import opened Schema
  import opened Text

  /** The `commands` table: command word to handler name. */
  const Handlers: map<string, string> :=
    map["clear" := "clear", "download" := "download_version", "start" := "start_version"]

  /** What one input line leads to. */
  datatype Dispatch =
    | Unknown(word: string)   // the "unknown command" message
    | Invoke(source: string)  // the Python call text handed to `exec`

  /** The argument text: the part after the first space, with every comma
      split off and rejoined by `, `; empty when the line has no space. */
  function ArgumentText(rest: Option<string>): string
  {
    if rest.None? then "" else Join(", ", Split(rest.value, ','))
  }

  /** `process_command` up to the `exec` call, for a command table
      `commands`. */
  function Route(commands: map<string, string>, text: string): (d: Dispatch)
    ensures d.Unknown? <==> SplitOnce(text, ' ').0 !in commands
    ensures d.Unknown? ==> d.word == SplitOnce(text, ' ').0
  {
    var (word, rest) := SplitOnce(text, ' ');
    if word !in commands then Unknown(word)
    else Invoke(commands[word] + "(" + ArgumentText(rest) + ")")
  }

  /** `process_command` with the launcher's own table. */
  function ProcessCommand(text: string): Dispatch
  {
    Route(Handlers, text)
  }

  /** A known command word followed by a space and `rest` calls its handler
      on `rest` with a space inserted after every comma. */
  lemma DispatchWithArguments(commands: map<string, string>, word: string, rest: string)
    requires word in commands && ' ' !in word
    ensures Route(commands, word + " " + rest) == Invoke(commands[word] + "(" + ReplaceAll(rest, ",", ", ") + ")")
  {
    SplitOnceAt(word, rest, ' ');
    assert ArgumentText(Some(rest)) == ReplaceAll(rest, ",", ", ") by {
      CommaSpacing(rest);
    }
  }

  /** A known command word alone calls its handler with no arguments. */
  lemma DispatchBare(commands: map<string, string>, word: string)
    requires word in commands && ' ' !in word
    ensures Route(commands, word) == Invoke(commands[word] + "()")
  {
    SplitOnceAt(word, "", ' ');
  }

  /** Each of the launcher's three commands (`clear`, `download`, `start`)
      calls its handler: on the rest of the line, with a space inserted after
      every comma, when arguments follow; with no arguments when the word
      stands alone. */
  lemma LauncherCommands(word: string, rest: string)
    requires word in Handlers
    ensures ProcessCommand(word + " " + rest) == Invoke(Handlers[word] + "(" + ReplaceAll(rest, ",", ", ") + ")")
    ensures ProcessCommand(word) == Invoke(Handlers[word] + "()")
  {
    assert ' ' !in word by {
      assert word == "clear" || word == "download" || word == "start";
    }
    DispatchWithArguments(Handlers, word, rest);
    DispatchBare(Handlers, word);
  }

  /** `split(c, 1)` stops at the first `c`: text before it and text after it
      come back apart. */
  lemma {:induction false} SplitOnceAt(head: string, tail: string, c: char)
    requires c !in head
    ensures SplitOnce(head + [c] + tail, c) == (head, Some(tail))
    ensures SplitOnce(head, c) == (head, None)
    decreases |head|
  {
    if |head| > 0 {
      SplitOnceAt(head[1..], tail, c);
      assert (head + [c] + tail)[1..] == head[1..] + [c] + tail;
      assert [head[0]] + head[1..] == head;
    } else {
      assert head + [c] + tail == [c] + tail;
    }
  }

  /** An argument text without commas reaches the handler unchanged. */
  lemma ArgumentsWithoutCommas(rest: string)
    requires ',' !in rest
    ensures ArgumentText(Some(rest)) == rest
  {
    CommaSpacing(rest);
    ReplaceAllAbsent(rest, ",", ", ");
  }
}
