/**
 * Two sessions run step by step, each showing where the session code as
 * written departs from what it evidently intends, next to the same run on the
 * corrected operation.
 */
module Findings {
  import opened Wrappers
  import opened Protocol
  import opened Session

  /** An interpreter that answers every line with nothing but its prompt. */
  function PromptOnly(sent: seq<Sent>): string
  {
    PS1
  }

  /** Whatever was unread, one line to `PromptOnly` comes back as a prompt. */
  lemma PromptOnlyAnswers(m: Mirror, command: string)
    requires m.isOpen
    ensures RunLineStep(PromptOnly, m, command).result.Ok?
  {
    var m' := Send(PromptOnly, m, command);
    assert m'.unread == m.unread + PS1;
    assert OccursAt(m'.unread, PS1, |m.unread|);
  }

  /** `close` as written, on a session opened without `debug`: it fails on
      the missing log file before stopping the interpreter, so the
      interpreter keeps running and the variable file stays on disk. */
  method CloseWithoutDebugAsWritten() returns (r: Outcome, leaked: bool)
    ensures r == Fail(MissingAttribute) && leaked
  {
    var st := new BashExpansionState(false, PromptOnly);
    var _ := st.Open("vars");
    r := st.CloseAsWritten();
    leaked := st.mirrorAlive && st.varFileOnDisk;
  }

  /** The same session closed by the corrected `close`: nothing is left behind. */
  method CloseWithoutDebug() returns (r: Outcome, leaked: bool)
    ensures r == Pass && !leaked
  {
    var st := new BashExpansionState(false, PromptOnly);
    var _ := st.Open("vars");
    r := st.Close();
    leaked := st.mirrorAlive || st.varFileOnDisk;
  }

  /** An assignment written to an emptied file whose position was left at
      `pos` lands after `pos` NUL characters. */
  lemma WriteAfterTruncate(m: Mirror, assignment: string)
    requires m.isOpen && m.varFile == ""
    ensures UpdateVarFileStep(m, assignment).after.varFile == Nuls(m.varPos) + assignment + "\n"
  {
    WriteAtPastEnd("", m.varPos, assignment + "\n");
    assert "" + Nuls(m.varPos) == Nuls(m.varPos);
  }

  /** One assignment, the `source` that should empty the file, then a second
      assignment. With `truncate(0)` alone the second is written at the old
      position, after four NUL characters. */
  method RefillAfterSourceAsWritten() returns (content: string)
    ensures content == Nuls(4) + "y=2\n"
  {
    var st := new BashExpansionState(false, PromptOnly);
    var _ := st.Open("vars");
    var _ := st.UpdateVarFile("x=1");
    PromptOnlyAnswers(st.State(), SourceCommand(st.varFilePath));
    var sourced := st.UpdateBashMirrorVarsAsWritten();
    WriteAfterTruncate(st.State(), "y=2");
    var _ := st.UpdateVarFile("y=2");
    content := st.varFile;
  }

  /** The same run with the file emptied and rewound: the file holds exactly
      the second assignment. */
  method RefillAfterSource() returns (content: string)
    ensures content == "y=2\n"
  {
    var st := new BashExpansionState(false, PromptOnly);
    var _ := st.Open("vars");
    var _ := st.UpdateVarFile("x=1");
    PromptOnlyAnswers(st.State(), SourceCommand(st.varFilePath));
    var sourced := st.UpdateBashMirrorVars();
    var _ := st.UpdateVarFile("y=2");
    content := st.varFile;
  }
}
