/** The coloured message texts and the menu-choice resolution of
    command_line_tools.py. Console output is modelled as the sequence of
    strings printed; `input()` as a sequence of lines without their newlines. */
module CommandLineTools {
  import opened Wrappers
  import opened Ascii

  const COLOR_SUCCESS := "\U{1B}[92m"
  const COLOR_ERROR := "\U{1B}[91m"
  const COLOR_RESET := "\U{1B}[0m"
  const INVALID_CHOICE := "Invalid choice. Please try again."

  /** The line `print_success(message)` prints. */
  function SuccessText(message: string): (r: string)
    ensures |r| == |COLOR_SUCCESS| + |message| + |COLOR_RESET|
    ensures r[..|COLOR_SUCCESS|] == COLOR_SUCCESS
    ensures r[|COLOR_SUCCESS|..|COLOR_SUCCESS| + |message|] == message
    ensures r[|r| - |COLOR_RESET|..] == COLOR_RESET
  {
    COLOR_SUCCESS + message + COLOR_RESET
  }

  /** The line `print_error(message)` prints. */
  function ErrorText(message: string): (r: string)
    ensures |r| == |COLOR_ERROR| + 7 + |message| + |COLOR_RESET|
    ensures r[..|COLOR_ERROR|] == COLOR_ERROR
    ensures r[|COLOR_ERROR|..|COLOR_ERROR| + 7] == "Error: "
    ensures r[|COLOR_ERROR| + 7..|COLOR_ERROR| + 7 + |message|] == message
    ensures r[|r| - |COLOR_RESET|..] == COLOR_RESET
  {
    COLOR_ERROR + "Error: " + message + COLOR_RESET
  }

  /** `[str(key) for key, _ in options]`; the keys are held already as strings. */
  function OptionKeys(options: seq<(string, string)>): seq<string>
  {
    seq(|options|, i requires 0 <= i < |options| => options[i].0)
  }

  /** What one input line selects: the line lower-cased (not stripped), the
      default for an empty line, accepted only when it is one of the keys. */
  function Resolve(options: seq<(string, string)>, default: string, line: string): (r: Option<string>)
    ensures r.Some? ==> r.value in OptionKeys(options)
    ensures r.Some? ==> r.value == default || r.value == Lower(line)
  {
    var choice := Lower(line);
    var choice := if choice == "" then default else choice;
    if choice in OptionKeys(options) then Some(choice) else None
  }

  /** A resolved choice is always one of the keys; an empty line selects the
      default exactly when the default is a key (so with default "" and no ""
      key an empty line is rejected); any other line selects its lower-cased text. */
  lemma {:induction false} ResolveSpec(options: seq<(string, string)>, default: string, line: string)
    ensures Resolve(options, default, line).Some? ==> Resolve(options, default, line).value in OptionKeys(options)
    ensures line == "" ==> Resolve(options, default, line) == (if default in OptionKeys(options) then Some(default) else None)
    ensures line != "" ==> Resolve(options, default, line) == (if Lower(line) in OptionKeys(options) then Some(Lower(line)) else None)
  {
    assert line != "" ==> Lower(line)[0] == ToLower(line[0]);
  }

  /** Surrounding spaces are not removed: " 1" does not select key "1", and
      upper case selects the lower-case key. */
  lemma ResolveExamples()
    ensures Resolve([("1", "Search")], "", " 1") == None
    ensures Resolve([("1", "Search")], "", "1") == Some("1")
    ensures Resolve([("q", "Quit")], "", "Q") == Some("q")
    ensures Resolve([("1", "Search")], "", "") == None
    ensures Resolve([("1", "Search"), ("2", "Back")], "2", "") == Some("2")
  {
    assert Lower(" 1") == " 1";
    assert Lower("1") == "1";
    assert Lower("Q") == "q";
    assert OptionKeys([("1", "Search")]) == ["1"];
    assert OptionKeys([("q", "Quit")]) == ["q"];
    assert OptionKeys([("1", "Search"), ("2", "Back")]) == ["1", "2"];
  }

  /** The lines one round of the prompt prints before reading a line. */
  function MenuLines(header: Option<string>, options: seq<(string, string)>): seq<string>
  {
    (if header.Some? then [SuccessText("\n=== " + header.value + " ===")] else [])
      + seq(|options|, i requires 0 <= i < |options| => "[" + options[i].0 + "] " + options[i].1)
  }

  /** The output of `rejected` rejected rounds, each ending in the error line,
      followed by the menu of the round that accepted a line, if any. */
  function Transcript(header: Option<string>, options: seq<(string, string)>, rejected: nat, accepted: bool): seq<string>
  {
    if rejected == 0 then (if accepted then MenuLines(header, options) else [])
    else MenuLines(header, options) + [ErrorText(INVALID_CHOICE)] + Transcript(header, options, rejected - 1, accepted)
  }

  /** A round appended to `n` rejected rounds: accepted or rejected. */
  lemma {:induction false} TranscriptExtend(header: Option<string>, options: seq<(string, string)>, n: nat)
    ensures Transcript(header, options, n, false) + MenuLines(header, options) == Transcript(header, options, n, true)
    ensures Transcript(header, options, n, false) + MenuLines(header, options) + [ErrorText(INVALID_CHOICE)]
         == Transcript(header, options, n + 1, false)
  {
    if n > 0 {
      TranscriptExtend(header, options, n - 1);
    }
  }

  /** `select_option(header, options, default_value)` over the input lines
      `lines`: the value of the first line that resolves, after `used` lines;
      `None` when the input runs out first (where `input()` raises EOFError). */
  method SelectOption(header: Option<string>, options: seq<(string, string)>, default: string, lines: seq<string>)
    returns (choice: Option<string>, used: nat, output: seq<string>)
    ensures used <= |lines|
    ensures choice.Some? ==> used >= 1 && Resolve(options, default, lines[used - 1]) == choice
    ensures choice.None? ==> used == |lines|
    ensures forall i :: 0 <= i < used && (choice.None? || i < used - 1) ==> Resolve(options, default, lines[i]).None?
    ensures choice.Some? ==> choice.value in OptionKeys(options)
    ensures output == Transcript(header, options, if choice.Some? then used - 1 else used, choice.Some?)
  {
    used := 0;
    output := [];
    while used < |lines|
      invariant used <= |lines|
      invariant forall i :: 0 <= i < used ==> Resolve(options, default, lines[i]).None?
      invariant output == Transcript(header, options, used, false)
    {
      TranscriptExtend(header, options, used);
      output := output + MenuLines(header, options);
      var line := lines[used];
      var c := Lower(line);
      if c == "" {
        c := default;
      }
      used := used + 1;
      if c in OptionKeys(options) {
        choice := Some(c);
        ResolveSpec(options, default, line);
        return;
      }
      output := output + [ErrorText(INVALID_CHOICE)];
    }
    choice := None;
  }
}
