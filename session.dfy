/**
 * The oracle session (`BashExpansionState`): the lifecycle of the interactive
 * interpreter, the synchronous command/prompt round trip, the NUL-separated
 * expansion probe and the variable file.
 *
 * The interpreter process is an oracle: a function from the lines sent to it so
 * far (each with the content the variable file had when it was sent, which is
 * what a `source` of that file reads) to the text it writes in answer to the
 * last of them. What it writes is appended to the unread output; a round trip
 * consumes the unread output up to and including the first prompt.
 */
module Session {
  import opened Wrappers
  import opened Protocol

  /** One line written to the interpreter, with the variable file's content at that moment. */
  datatype Sent = Sent(line: string, varFile: string)

  /** The interpreter: what it writes in answer to the last line it was sent. */
  type Bash = seq<Sent> -> string

  /** The state of a session that the round trips and the compiler read and change. */
  datatype Mirror = Mirror(isOpen: bool, varFile: string, varPos: nat, sent: seq<Sent>, unread: string)

  /** A result together with the session state after computing it; with `:-`,
      a failure stops the computation and keeps the state reached. */
  datatype Run<+T> = Run(result: Result<T>, after: Mirror) {
    predicate IsFailure() { result.Err? }

    function PropagateFailure<U>(): Run<U>
      requires result.Err?
    {
      Run(Err(result.error), after)
    }

    function Extract(): (T, Mirror)
      requires result.Ok?
    {
      (result.value, after)
    }
  }

  /** The lines of a transcript. */
  function Lines(sent: seq<Sent>): (lines: seq<string>)
    ensures |lines| == |sent| && forall i :: 0 <= i < |sent| ==> lines[i] == sent[i].line
  {
    seq(|sent|, i requires 0 <= i < |sent| => sent[i].line)
  }

  lemma LinesAppend(a: seq<Sent>, b: seq<Sent>)
    ensures Lines(a + b) == Lines(a) + Lines(b)
  {
  }

  // ---------------------------------------------------------------------------
  // The round trips as functions of the session state

  /** `wait_bash_mirror`: the unread output before the first prompt, with
      every CR LF turned into LF; what follows the prompt stays unread. */
  function WaitStep(m: Mirror): (r: Run<string>)
    ensures !m.isOpen ==> r == Run(Err(NotOpen), m)
    ensures r.after == m.(unread := r.after.unread)
  {
    if !m.isOpen then Run(Err(NotOpen), m)
    else
      match BeforePrompt(m.unread)
      case None => Run(Err(NoPrompt), m)
      case Some((before, after)) => Run(Ok(ReplaceCrlf(before)), m.(unread := after))
  }

  /** On an open session a wait fails with `NoPrompt`, changing nothing,
      exactly when the unread output holds no prompt. */
  lemma WaitStepNoPrompt(m: Mirror)
    requires m.isOpen
    ensures WaitStep(m).result == Err(NoPrompt) <==> !Contains(m.unread, PS1)
    ensures !Contains(m.unread, PS1) ==> WaitStep(m).after == m
  {
  }

  /** A successful wait answers the normalised text before the first prompt,
      which holds no prompt itself, and leaves the rest unread. */
  lemma WaitStepReply(m: Mirror)
    requires WaitStep(m).result.Ok?
    ensures exists before :: PromptSplits(m.unread, before, WaitStep(m).after.unread) &&
                             WaitStep(m).result.value == ReplaceCrlf(before)
    ensures !Contains(WaitStep(m).result.value, PS1)
  {
    var split := BeforePrompt(m.unread).value;
    assert PromptSplits(m.unread, split.0, WaitStep(m).after.unread);
    assert !Contains(split.0, PS1);
    assert WaitStep(m).result.value == ReplaceCrlf(split.0);
    PromptHasNoLineFeed();
    ReplaceCrlfKeepsAbsent(split.0, PS1);
  }

  /** `sendline`: the line joins the transcript and the interpreter's answer
      joins the unread output. */
  function Send(bash: Bash, m: Mirror, command: string): (m': Mirror)
    ensures m'.sent == m.sent + [Sent(command, m.varFile)]
    ensures m' == m.(sent := m'.sent, unread := m'.unread)
  {
    var sent := m.sent + [Sent(command, m.varFile)];
    m.(sent := sent, unread := m.unread + bash(sent))
  }

  /** `sync_run_line_command_mirror`: send one line, wait for the prompt. */
  function RunLineStep(bash: Bash, m: Mirror, command: string): (r: Run<string>)
    ensures !m.isOpen ==> r == Run(Err(NotOpen), m)
    ensures m.isOpen ==> r.after.sent == m.sent + [Sent(command, m.varFile)]
    ensures r.after.isOpen == m.isOpen && r.after.varFile == m.varFile && r.after.varPos == m.varPos
  {
    if !m.isOpen then Run(Err(NotOpen), m)
    else WaitStep(Send(bash, m, command))
  }

  /** `expand_word`: one probe line; the fields it printed, each NUL-terminated. */
  function ExpandWordStep(bash: Bash, m: Mirror, word: string): (r: Run<seq<string>>)
    ensures !m.isOpen ==> r == Run(Err(NotOpen), m)
    ensures m.isOpen ==> r.after.sent == m.sent + [Sent(ProbeCommand(word), m.varFile)]
    ensures r.after.isOpen == m.isOpen && r.after.varFile == m.varFile && r.after.varPos == m.varPos
    ensures r.result.Ok? ==> forall i :: 0 <= i < |r.result.value| ==> NUL !in r.result.value[i]
    ensures r.result.Ok? ==> exists output :: r == Run(Ok(SplitNul(output)), r.after) &&
                                             RunLineStep(bash, m, ProbeCommand(word)) == Run(Ok(output), r.after)
  {
    if !m.isOpen then Run(Err(NotOpen), m)
    else
      var output :- RunLineStep(bash, m, ProbeCommand(word));
      SplitNulInverse(output.0);
      Run(Ok(SplitNul(output.0)), output.1)
  }

  /** `update_var_file`: write the assignment and a line feed at the file's
      current position. */
  function UpdateVarFileStep(m: Mirror, assignment: string): (r: Run<()>)
    ensures !m.isOpen ==> r == Run(Err(NotOpen), m)
    ensures m.isOpen ==> r.result.Ok?
    ensures m.isOpen && m.varPos == |m.varFile| ==>
      r.after == m.(varFile := m.varFile + assignment + "\n", varPos := |m.varFile| + |assignment| + 1)
  {
    if !m.isOpen then Run(Err(NotOpen), m)
    else
      var data := assignment + "\n";
      WriteAtEnd(m.varFile, data);
      Run(Ok(()), m.(varFile := WriteAt(m.varFile, m.varPos, data), varPos := m.varPos + |data|))
  }

  /** The first round trip of a freshly opened session sends exactly the
      prompt line. */
  lemma OpenedRound(bash: Bash)
    ensures RunLineStep(bash, Mirror(true, "", 0, [], ""), SetPs1Command).after.sent == [Sent(SetPs1Command, "")]
  {
  }

  function Discard<T>(r: Result<T>): Outcome
  {
    if r.Ok? then Pass else Fail(r.error)
  }

  // ---------------------------------------------------------------------------
  // The session object

  class BashExpansionState {
    /** The `debug` option: a log file is attached to the interpreter only when set. */
    const debug: bool
    /** The interpreter the session drives. */
    const bash: Bash

    var isOpen: bool
    /** The temporary variable file: its path, content and write position, and
        whether it exists on disk. */
    var varFilePath: string
    var varFile: string
    var varPos: nat
    var varFileOnDisk: bool
    /** Whether a `bash_mirror` was ever spawned, and whether it is running. */
    var mirrorSpawned: bool
    var mirrorAlive: bool
    /** The lines written to the running interpreter, and its unread output. */
    var sent: seq<Sent>
    var unread: string

    function State(): Mirror
      reads this
    {
      Mirror(isOpen, varFile, varPos, sent, unread)
    }

    /** An open session owns a running interpreter and an existing variable
        file, and every write to that file appends. */
    ghost predicate Valid()
      reads this
    {
      (isOpen ==> mirrorSpawned && mirrorAlive && varFileOnDisk) && varPos == |varFile|
    }

    /** `__init__` without `open=True`. */
    constructor (debug: bool, bash: Bash)
      ensures this.debug == debug && this.bash == bash
      ensures !isOpen && !mirrorSpawned && !mirrorAlive && !varFileOnDisk
      ensures varFile == "" && varPos == 0 && sent == [] && unread == ""
      ensures Valid()
    {
      this.debug := debug;
      this.bash := bash;
      isOpen := false;
      varFilePath := "";
      varFile := "";
      varPos := 0;
      varFileOnDisk := false;
      mirrorSpawned := false;
      mirrorAlive := false;
      sent := [];
      unread := "";
    }

    /** `open`: nothing when already open; otherwise a fresh, empty variable
        file at `path` (the name `mkstemp` chose), a fresh interpreter, and the
        read-only prompt as its first line. */
    method Open(path: string) returns (r: Outcome)
      modifies this
      ensures old(isOpen) ==> r == Pass && unchanged(this)
      ensures !old(isOpen) ==>
        isOpen && varFilePath == path && varFileOnDisk && mirrorSpawned && mirrorAlive &&
        varFile == "" && varPos == 0 && sent == [Sent(SetPs1Command, "")] &&
        var run := RunLineStep(bash, Mirror(true, "", 0, [], ""), SetPs1Command);
        r == Discard(run.result) && State() == run.after
      ensures old(Valid()) ==> Valid()
    {
      if isOpen {
        return Pass;
      }
      varFilePath := path;
      varFile := "";
      varPos := 0;
      varFileOnDisk := true;
      mirrorSpawned := true;
      mirrorAlive := true;
      sent := [];
      unread := "";
      isOpen := true;
      OpenedRound(bash);
      r := SetPs1();
    }

    /** `close` with the log file closed only when there is one: the session
        is closed, the interpreter stopped and the variable file removed. A
        second close finds the file gone. */
    method Close() returns (r: Outcome)
      modifies this`isOpen, this`mirrorAlive, this`varFileOnDisk
      ensures !isOpen
      ensures !mirrorSpawned ==> r == Fail(MissingAttribute) && mirrorAlive == old(mirrorAlive) && varFileOnDisk == old(varFileOnDisk)
      ensures mirrorSpawned ==> !mirrorAlive && !varFileOnDisk && r == (if old(varFileOnDisk) then Pass else Fail(FileMissing))
      ensures old(Valid()) ==> Valid()
    {
      isOpen := false;
      if !mirrorSpawned {
        return Fail(MissingAttribute);
      }
      mirrorAlive := false;
      if !varFileOnDisk {
        return Fail(FileMissing);
      }
      varFileOnDisk := false;
      r := Pass;
    }

    /** `close` as the source writes it: it closes `bash_mirror.logfile`,
        which only exists in debug mode, before stopping the interpreter and
        removing the variable file. */
    method CloseAsWritten() returns (r: Outcome)
      modifies this`isOpen, this`mirrorAlive, this`varFileOnDisk
      ensures !isOpen
      ensures !mirrorSpawned || !debug ==>
        r == Fail(MissingAttribute) && mirrorAlive == old(mirrorAlive) && varFileOnDisk == old(varFileOnDisk)
      ensures mirrorSpawned && debug ==>
        !mirrorAlive && !varFileOnDisk && r == (if old(varFileOnDisk) then Pass else Fail(FileMissing))
    {
      isOpen := false;
      if !mirrorSpawned || !debug {
        return Fail(MissingAttribute);
      }
      mirrorAlive := false;
      if !varFileOnDisk {
        return Fail(FileMissing);
      }
      varFileOnDisk := false;
      r := Pass;
    }

    /** `set_ps1`: make the sentinel the interpreter's read-only prompt. */
    method SetPs1() returns (r: Outcome)
      modifies this`sent, this`unread
      ensures var run := RunLineStep(bash, old(State()), SetPs1Command);
              r == Discard(run.result) && State() == run.after
    {
      var out := SyncRunLineCommandMirror(SetPs1Command);
      r := Discard(out);
    }

    /** `update_var_file`: only on an open session; the assignment and a line
        feed are written at the file's position. */
    method UpdateVarFile(assignment: string) returns (r: Outcome)
      modifies this`varFile, this`varPos
      ensures !old(isOpen) ==> r == Fail(NotOpen) && varFile == old(varFile) && varPos == old(varPos)
      ensures old(isOpen) ==> r == Pass
      ensures old(isOpen) && old(varPos) == old(|varFile|) ==> varFile == old(varFile) + assignment + "\n"
      ensures var run := UpdateVarFileStep(old(State()), assignment);
              r == Discard(run.result) && State() == run.after
      ensures old(Valid()) ==> Valid()
    {
      if !isOpen {
        return Fail(NotOpen);
      }
      var data := assignment + "\n";
      if varPos == |varFile| { WriteAtEnd(varFile, data); }
      varFile := WriteAt(varFile, varPos, data);
      varPos := varPos + |data|;
      r := Pass;
    }

    /** `update_bash_mirror_vars`, with the file emptied and rewound: only on
        an open session; the interpreter sources the file, which is then empty
        and written from its start again. */
    method UpdateBashMirrorVars() returns (r: Outcome)
      modifies this`varFile, this`varPos, this`sent, this`unread
      ensures !old(isOpen) ==> r == Fail(NotOpen) && unchanged(this)
      ensures old(isOpen) ==> sent == old(sent) + [Sent(SourceCommand(varFilePath), old(varFile))]
      ensures var run := RunLineStep(bash, old(State()), SourceCommand(varFilePath));
              r == Discard(run.result) && unread == run.after.unread
      ensures r.Pass? ==> varFile == "" && varPos == 0
      ensures r.Fail? ==> varFile == old(varFile) && varPos == old(varPos)
      ensures old(Valid()) ==> Valid()
    {
      if !isOpen {
        return Fail(NotOpen);
      }
      var out := SyncRunLineCommandMirror(SourceCommand(varFilePath));
      if out.Err? {
        return Fail(out.error);
      }
      varFile := "";
      varPos := 0;
      r := Pass;
    }

    /** `update_bash_mirror_vars` as the source writes it: `truncate(0)` empties
        the file but leaves the write position where it was. */
    method UpdateBashMirrorVarsAsWritten() returns (r: Outcome)
      modifies this`varFile, this`sent, this`unread
      ensures !old(isOpen) ==> r == Fail(NotOpen) && unchanged(this)
      ensures old(isOpen) ==> sent == old(sent) + [Sent(SourceCommand(varFilePath), old(varFile))]
      ensures var run := RunLineStep(bash, old(State()), SourceCommand(varFilePath));
              r == Discard(run.result) && unread == run.after.unread
      ensures r.Pass? ==> varFile == ""
      ensures r.Fail? ==> varFile == old(varFile)
    {
      if !isOpen {
        return Fail(NotOpen);
      }
      var out := SyncRunLineCommandMirror(SourceCommand(varFilePath));
      if out.Err? {
        return Fail(out.error);
      }
      varFile := "";
      r := Pass;
    }

    /** `expand_word`: only on an open session; sends the NUL-separated probe
        and returns its fields. */
    method ExpandWord(word: string) returns (r: Result<seq<string>>)
      modifies this`sent, this`unread
      ensures Run(r, State()) == ExpandWordStep(bash, old(State()), word)
      ensures old(isOpen) ==> sent == old(sent) + [Sent(ProbeCommand(word), varFile)]
      ensures r.Ok? ==> forall i :: 0 <= i < |r.value| ==> NUL !in r.value[i]
    {
      if !isOpen {
        return Err(NotOpen);
      }
      var output := SyncRunLineCommandMirror(ProbeCommand(word));
      if output.Err? {
        return Err(output.error);
      }
      SplitNulInverse(output.value);
      r := Ok(SplitNul(output.value));
    }

    /** `sync_run_line_command_mirror`: only on an open session; one line to
        the interpreter, then the text it wrote before its next prompt. */
    method SyncRunLineCommandMirror(command: string) returns (r: Result<string>)
      modifies this`sent, this`unread
      ensures Run(r, State()) == RunLineStep(bash, old(State()), command)
      ensures old(isOpen) ==> sent == old(sent) + [Sent(command, varFile)]
      ensures !old(isOpen) ==> r == Err(NotOpen) && sent == old(sent) && unread == old(unread)
    {
      if !isOpen {
        return Err(NotOpen);
      }
      sent := sent + [Sent(command, varFile)];
      unread := unread + bash(sent);
      r := WaitBashMirror();
    }

    /** `wait_bash_mirror`: only on an open session; the unread output up to
        the first prompt, CR LF normalised and free of the prompt. */
    method WaitBashMirror() returns (r: Result<string>)
      modifies this`unread
      ensures Run(r, State()) == WaitStep(old(State()))
      ensures r.Ok? ==> !Contains(r.value, PS1)
    {
      if !isOpen {
        return Err(NotOpen);
      }
      var split := BeforePrompt(unread);
      if split.None? {
        return Err(NoPrompt);
      }
      var before := split.value.0;
      unread := split.value.1;
      PromptHasNoLineFeed();
      ReplaceCrlfKeepsAbsent(before, PS1);
      r := Ok(ReplaceCrlf(before));
    }
  }
}
