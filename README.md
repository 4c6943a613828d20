# sh-expand: word expansion through a mirrored bash session

`sh_expand/bash_expand.py` expands the words of a parsed shell script by
asking a live, interactive `bash` process (the *bash mirror*) what each word
expands to. It walks the syntax tree. Each word that may expand (one
containing `$`, a backquote or `~`) is sent to the mirror as
`printf '%s\0' <word>`. The NUL-separated fields the mirror prints are put
back into the tree as quoted words. Each assignment in front of a command is
written to a temporary *variable file*, and `source`-ing that file loads the
assignments into the mirror.

The project has these modules, one per file:

- `Wrappers`: results and errors.
- `Words`: the character-coded words and `should_expand`.
- `Protocol`: the line protocol, meaning the prompt sentinel, the commands,
  the text before the prompt, CR LF repair and NUL splitting. It also holds
  the model of a file written at a position.
- `Ast`: the tree.
- `Session`: the `BashExpansionState` class as a Dafny class. Its round trips
  are also given as pure step functions on a snapshot (`Mirror`) of its
  state.
- `CompileSpec`: every `compile_*` function as a pure function that threads
  the session snapshot.
- `CompileProps`: what compilation does, as lemmas.
- `Compiler`: every `compile_*` function as a method on the session object.
  Each method is proved equal to its `CompileSpec` counterpart.
- `Findings`: two concrete sessions, each showing a departure of the code as
  written from its evident intent.

The bash process is an oracle. A value of type `Session.Bash` maps the lines
sent so far to the text the process writes in answer to the last one. Each
line carries the variable file's content at the moment it was sent, which is
what a `source` of that file reads. The text is appended to the unread
output. A round trip (`wait_bash_mirror`) consumes that output up to and
including the first prompt, or fails with `NoPrompt` where `expect` would
time out.

Python's exceptions are modelled as error values:

- A failed `assert self.is_open` gives `NotOpen`.
- An unknown node name or redirection type (`NotImplementedError`) gives
  `UnknownNode` or `UnknownRedirection`.
- A character code that `chr` rejects gives `InvalidCode`.
- Calling a method on a missing log file gives `MissingAttribute`.
- Removing a file that is already gone gives `FileMissing`.

An error stops compilation. The session state reached at that point is kept,
because the mirror has already been sent what it was sent.

The tree is a datatype, and a handler returns the rebuilt node. A compiled
word field is either `Single(word)` (kept unchanged) or `Expanded(words)`
(the list of one-character quoted words that the source stores in that
field).

## Model

| member | source | states |
|---|---|---|
| Words.ShouldExpandIff | sh_expand/bash_expand.py:56-59 | a raw word should expand exactly when one of its character codes is that of `$`, a backquote or `~` |
| Words.ShouldExpand | sh_expand/bash_expand.py:56-59 | the left-to-right test of each code; `ShouldExpandIff` proves it answers true exactly when some code is that of `$`, a backquote or `~` |
| Words.ShouldExpandConcat | sh_expand/bash_expand.py:56-59 | `should_expand` of two words joined is the disjunction of each (the test is per character) |
| Words.CodesToText | sh_expand/bash_expand.py:401 | the `chr`-join of a word succeeds exactly when every code is a Unicode scalar value; it then has one character per code with that code; otherwise it fails on an offending code |
| Words.WordText | sh_expand/bash_expand.py:401 | the text sent for a word is the `chr`-join of its codes, so `CodesToText` states when it exists and what it holds |
| Words.StrToQuotedArgChar | sh_expand/bash_expand.py:406-407 | the result is a quoted character with one code per character of the string, and decoding those codes gives back the string |
| Words.QuotedCodesUnique | sh_expand/bash_expand.py:406-407 | a list of codes that decodes to a string is exactly the list `str_to_quoted_arg_char` builds for it, so quoting is injective |
| Protocol.Find | sh_expand/bash_expand.py:170 | the search `expect` does: the first position where the pattern occurs, or none exactly when it does not occur |
| Protocol.ProbeCommand | sh_expand/bash_expand.py:145 | the probe line is `printf '%s\0' ` followed by the word; `CompileProps.ProbeLines` and `Session.ExpandWordStep` state that exactly this line is sent per probed word |
| Protocol.SourceCommand | sh_expand/bash_expand.py:134 | the line that loads a file is `source '<path>'`; `Session.BashExpansionState.UpdateBashMirrorVars` and `CompileProps.ExpandCommandEffect` state when it is sent |
| Protocol.ReplaceCrlf | sh_expand/bash_expand.py:175 | `replace("\r\n", "\n")`, non-overlapping and left to right; `ReplaceCrlfNoCr`, `ReplaceCrlfUndoesTerminal`, `ReplaceCrlfKeepsAbsent` and `OccursInNormalised` state what it keeps and undoes |
| Protocol.BeforePrompt | sh_expand/bash_expand.py:170-172 | `before` followed by the prompt and the rest is the stream; `before` holds no prompt; no result exactly when the stream holds no prompt |
| Protocol.ReplaceCrlfNoCr | sh_expand/bash_expand.py:175 | text without carriage returns is left unchanged by `replace("\r\n", "\n")` |
| Protocol.ToCrlf | sh_expand/bash_expand.py:174-175 | the terminal's LF-to-CR LF translation, which `ReplaceCrlfUndoesTerminal` proves the repair undoes on output without carriage returns |
| Protocol.ReplaceCrlfUndoesTerminal | sh_expand/bash_expand.py:174-175 | undoing the terminal's CR LF translation gives back the text the process wrote if that text held no carriage return |
| Protocol.ReplaceCrlfPrefix | sh_expand/bash_expand.py:175 | a line-feed-free prefix of the repaired text is a prefix of the raw text |
| Protocol.ReplaceCrlfKeepsAbsent | sh_expand/bash_expand.py:175 | repairing line ends cannot create an occurrence of a pattern without line feeds, such as the prompt |
| Protocol.OccursInNormalised | sh_expand/bash_expand.py:175 | an occurrence of such a pattern in the repaired text comes from one in the raw text |
| Protocol.Split | sh_expand/bash_expand.py:149 | Python's `str.split` on one separator, with at least one field; `SplitFieldsFree` proves no field holds the separator and `SplitNulInverse` that the pieces rejoin to the input |
| Protocol.SplitAfterField | sh_expand/bash_expand.py:149 | splitting a separator-free field, the separator and a tail gives the field followed by the tail's fields |
| Protocol.SplitNulTerminated | sh_expand/bash_expand.py:145-151 | for fields without NUL, each printed with a trailing NUL, `split("\0")[:-1]` returns exactly the fields (the probe's round trip) |
| Protocol.SplitNul | sh_expand/bash_expand.py:149 | `split("\0")[:-1]`; `SplitNulTerminated` and `SplitNulInverse` state that it returns exactly the NUL-terminated fields, and that they hold no NUL |
| Protocol.SplitFieldsFree | sh_expand/bash_expand.py:149 | no field of a split holds the separator |
| Protocol.SplitNulInverse | sh_expand/bash_expand.py:149 | the fields returned are NUL-free, and the output is those fields, each NUL-terminated, followed by the dropped last piece |
| Protocol.Nuls | sh_expand/bash_expand.py:137 | the NUL padding a file gets when written past its end: that many NUL characters |
| Protocol.WriteAt | sh_expand/bash_expand.py:129 | a file after writing data at a position: the data at that position, the old content before it (NUL-padded past the end), the old content after it, and the resulting length |
| Protocol.WriteAtEnd | sh_expand/bash_expand.py:129 | writing at the end appends |
| Protocol.WriteAtPastEnd | sh_expand/bash_expand.py:129-137 | writing past the end leaves the old content, NUL padding for the gap, then the data |
| Session.WaitStep | sh_expand/bash_expand.py:167-179 | closed: `NotOpen`, with nothing changed; in every case only the unread output changes |
| Session.WaitStepNoPrompt | sh_expand/bash_expand.py:170-171 | on an open session: `NoPrompt` exactly when the unread output holds no prompt, and then nothing changes |
| Session.WaitStepReply | sh_expand/bash_expand.py:170-179 | on success: the unread output was some text, the prompt and what stays unread; the answer is that text with CR LF turned into LF, and it holds no prompt |
| Session.Send | sh_expand/bash_expand.py:160 | `sendline` records exactly one more line, with the variable file's content, and changes only the sent lines and the unread output |
| Session.RunLineStep | sh_expand/bash_expand.py:153-165 | closed: `NotOpen`, nothing changes; open: exactly one line more is sent; openness and the variable file are kept |
| Session.ExpandWordStep | sh_expand/bash_expand.py:139-151 | closed: `NotOpen`; open: exactly the probe line is sent; a result is the NUL split of the round-trip output, and no field holds a NUL |
| Session.UpdateVarFileStep | sh_expand/bash_expand.py:127-129 | closed: `NotOpen`; open: success, and with the position at the end the file gains the assignment and a line feed |
| Session.BashExpansionState.constructor | sh_expand/bash_expand.py:74-87 | a closed session with no interpreter, no file, nothing sent or unread, satisfying the session invariant |
| Session.BashExpansionState.Open | sh_expand/bash_expand.py:89-113 | a no-op when open; otherwise an empty file at the chosen path, a running interpreter, the prompt line as the only line sent, and the invariant kept |
| Session.BashExpansionState.Close | sh_expand/bash_expand.py:116-121 | closed afterwards; the interpreter stopped and the file removed; a second close reports the missing file; the invariant kept |
| Session.BashExpansionState.CloseAsWritten | sh_expand/bash_expand.py:116-121 | closed afterwards; without a log file it fails before stopping the interpreter or removing the file |
| Session.BashExpansionState.SetPs1 | sh_expand/bash_expand.py:123-125 | one round trip of the read-only prompt command |
| Session.BashExpansionState.UpdateVarFile | sh_expand/bash_expand.py:127-129 | closed: `NotOpen`, nothing written; open: the assignment and a line feed written at the position, which appends while the invariant holds |
| Session.BashExpansionState.UpdateBashMirrorVars | sh_expand/bash_expand.py:131-137 | closed: `NotOpen`, nothing changes; open: one `source` line sent with the file's content; on success the file is empty and rewound |
| Session.BashExpansionState.UpdateBashMirrorVarsAsWritten | sh_expand/bash_expand.py:131-137 | as above, but the emptied file keeps its old write position |
| Session.BashExpansionState.ExpandWord | sh_expand/bash_expand.py:139-151 | the probe round trip on the object; the fields it returns contain no NUL |
| Session.BashExpansionState.SyncRunLineCommandMirror | sh_expand/bash_expand.py:153-165 | the round trip on the object; closed: `NotOpen` and nothing changes |
| Session.BashExpansionState.WaitBashMirror | sh_expand/bash_expand.py:167-179 | the wait on the object; the text returned holds no prompt |
| CompileSpec.QuoteAll | sh_expand/bash_expand.py:402 | one word per expanded string, each a single quoted character decoding to that string |
| CompileSpec.CompileArgument | sh_expand/bash_expand.py:396-403 | a word that should not expand is returned unchanged with no round trip; an undecodable word fails; otherwise the probe's error is passed on, or one single-quoted-character word per field is returned, decoding to that field |
| CompileSpec.CompileArguments | sh_expand/bash_expand.py:380-391 | the fields of the words in order, an expansion spliced in and a kept word appended; `CompileProps.ArgumentsEffect` states the lines sent and `CompileProps.ArgumentsIdentity` that words which do not expand come back unchanged with the session untouched |
| CompileSpec.CompileOptArgument | sh_expand/bash_expand.py:342-352 | an absent or empty operand becomes absent with nothing sent; on success the result is present exactly when the operand was present and non-empty |
| CompileSpec.CompileOperand | sh_expand/bash_expand.py:463-464 | a fixed descriptor comes back unchanged with nothing sent; on success a `var` operand stays a `var` operand |
| CompileSpec.CompileEach | sh_expand/bash_expand.py:380-391 | one compiled field per argument |
| CompileSpec.CompileRedirection | sh_expand/bash_expand.py:432-445 | an unknown redirection type fails with `UnknownRedirection` and touches nothing; a known one never does; success keeps the type |
| CompileSpec.CompileRedirections | sh_expand/bash_expand.py:426-429 | one redirection out per redirection in |
| CompileSpec.CompileAssignments | sh_expand/bash_expand.py:410-415 | one assignment out per assignment in |
| CompileSpec.CompileAssignment | sh_expand/bash_expand.py:418-423 | on a closed session it fails (the `assert self.is_open` of probing or of `update_var_file`); on success the name is kept and the session stays open; `CompileProps.AssignmentEffect` states the write |
| Ast.NodeNameKnown | sh_expand/bash_expand.py:194-240 | a node's name is one the dispatcher tests for exactly when the node is not `Other` |
| CompileSpec.CompileNode | sh_expand/bash_expand.py:194-240 | an unknown node name fails with `UnknownNode` and touches nothing; success keeps the node's kind |
| CompileSpec.CompilePipeNode | sh_expand/bash_expand.py:243-245 | a pipe with as many items |
| CompileSpec.CompileCommandNode | sh_expand/bash_expand.py:248-252 | a command with as many assignments and redirections |
| CompileSpec.CompileSubshellNode | sh_expand/bash_expand.py:255-257 | a subshell |
| CompileSpec.CompileAndNode | sh_expand/bash_expand.py:260-263 | an `&&` node |
| CompileSpec.CompileOrNode | sh_expand/bash_expand.py:266-269 | an `\|\|` node |
| CompileSpec.CompileSemiNode | sh_expand/bash_expand.py:272-275 | a `;` node |
| CompileSpec.CompileNotNode | sh_expand/bash_expand.py:278-280 | a `!` node |
| CompileSpec.CompileRedirNode | sh_expand/bash_expand.py:283-286 | a redirected node with as many redirections |
| CompileSpec.CompileBackgroundNode | sh_expand/bash_expand.py:289-292 | a background node with as many redirections |
| CompileSpec.CompileDefunNode | sh_expand/bash_expand.py:295-298 | a function definition |
| CompileSpec.CompileForNode | sh_expand/bash_expand.py:301-306 | a `for` node whose body is the original body, untouched |
| CompileSpec.CompileWhileNode | sh_expand/bash_expand.py:309-312 | a `while` node |
| CompileSpec.CompileIfNode | sh_expand/bash_expand.py:315-321 | an `if` node with an else branch exactly when there was one |
| CompileSpec.CompileCaseNode | sh_expand/bash_expand.py:324-327 | a `case` node with as many arms |
| CompileSpec.CompileSelectNode | sh_expand/bash_expand.py:330-334 | a `select` node |
| CompileSpec.CompileArithNode | sh_expand/bash_expand.py:337-339 | an arithmetic node |
| CompileSpec.CompileCondNode | sh_expand/bash_expand.py:342-352 | a conditional node |
| CompileSpec.CompileArithForNode | sh_expand/bash_expand.py:355-360 | an arithmetic `for` node |
| CompileSpec.CompileCoprocNode | sh_expand/bash_expand.py:363-366 | a coprocess node |
| CompileSpec.CompileTimeNode | sh_expand/bash_expand.py:369-371 | a `time` node |
| CompileSpec.CompileGroupNode | sh_expand/bash_expand.py:374-377 | a group with as many redirections |
| CompileSpec.CompileNodes | sh_expand/bash_expand.py:243-245 | one compiled item per pipe item |
| CompileSpec.CompileCases | sh_expand/bash_expand.py:448-451 | one compiled arm per arm |
| CompileSpec.CompileCase | sh_expand/bash_expand.py:454-457 | the pattern, then the body in the state the pattern left; `CompileProps.CaseEffect` states the lines sent and the file written |
| CompileSpec.ExpandCommand | sh_expand/bash_expand.py:48-53 | the optional `source` line, then the tree; `CompileProps.ExpandCommandEffect` states the lines sent and the file written |
| CompileProps.ProbeLines | sh_expand/bash_expand.py:145 | the probe lines of a word list: one `printf` line per word, in order |
| CompileProps.ArgumentEffect | sh_expand/bash_expand.py:396-403 | compiling a word keeps openness and the file; on success it writes nothing and sends exactly the probe lines of the word (none when it does not expand) |
| CompileProps.EachEffect | sh_expand/bash_expand.py:380-391 | compiling arguments sends exactly their probe lines, in argument order; when none needs a probe, flattening the compiled fields gives back the arguments |
| CompileProps.ArgumentsEffect | sh_expand/bash_expand.py:380-391 | the same for `compile_command_arguments`; when no argument needs a probe, the output is the input |
| CompileProps.OptEffect | sh_expand/bash_expand.py:342-352 | a conditional operand is probed only when present and non-empty; otherwise it is returned unchanged |
| CompileProps.OperandEffect | sh_expand/bash_expand.py:460-493 | only a `var` file-descriptor operand is compiled; a fixed one is returned unchanged |
| CompileProps.RedirectionEffect | sh_expand/bash_expand.py:432-493 | a redirection sends exactly the probe lines of its operands, in order; without probes it is returned unchanged |
| CompileProps.RedirectionsEffect | sh_expand/bash_expand.py:426-429 | a list of redirections sends the probes of each in turn; without probes the list is returned unchanged |
| CompileProps.AssignmentEffect | sh_expand/bash_expand.py:418-423 | the value's probes are sent, then the assignment's rendering and a line feed are appended to the variable file |
| CompileProps.AssignmentsEffect | sh_expand/bash_expand.py:410-415 | the variable file gains the renderings of the compiled assignments, in order, after the probes of all their values |
| CompileProps.NodeEffect | sh_expand/bash_expand.py:194-240 | for any raw tree: openness is kept; on success the sent lines gain exactly the tree's probe lines in handler order; the file gains exactly the renderings of the tree's assignments; a tree with nothing to probe comes back unchanged |
| CompileProps.PipeNodeEffect | sh_expand/bash_expand.py:243-245 | the summary for a pipe: items compiled in order, in the same session |
| CompileProps.CommandNodeEffect | sh_expand/bash_expand.py:248-252 | the summary for a command: assignments, then arguments, then redirections |
| CompileProps.AndNodeEffect | sh_expand/bash_expand.py:260-263 | the summary for `&&`: left, then right |
| CompileProps.OrNodeEffect | sh_expand/bash_expand.py:266-269 | the summary for `\|\|`: left, then right |
| CompileProps.SemiNodeEffect | sh_expand/bash_expand.py:272-275 | the summary for `;`: left, then right |
| CompileProps.RedirNodeEffect | sh_expand/bash_expand.py:283-286 | the summary for a redirected node: the node, then its redirections |
| CompileProps.BackgroundNodeEffect | sh_expand/bash_expand.py:289-292 | the summary for a background node: the node, then its redirections |
| CompileProps.DefunNodeEffect | sh_expand/bash_expand.py:295-298 | the summary for a function definition: the name, then the body |
| CompileProps.ForNodeEffect | sh_expand/bash_expand.py:301-306 | the summary for `for`: the variable, then the list; the body is neither probed nor rewritten |
| CompileProps.WhileNodeEffect | sh_expand/bash_expand.py:309-312 | the summary for `while`: the test, then the body |
| CompileProps.IfNodeEffect | sh_expand/bash_expand.py:315-321 | the summary for `if`: the condition, the then branch, then the else branch when there is one |
| CompileProps.CaseNodeEffect | sh_expand/bash_expand.py:324-327 | the summary for `case`: the subject, then each arm |
| CompileProps.SelectNodeEffect | sh_expand/bash_expand.py:330-334 | the summary for `select`: the variable, the body, then the word list |
| CompileProps.CondNodeEffect | sh_expand/bash_expand.py:342-352 | the summary for a conditional: operator, left, right, each only when present and non-empty |
| CompileProps.ArithForNodeEffect | sh_expand/bash_expand.py:355-360 | the summary for an arithmetic `for`: init, condition, step, then the action |
| CompileProps.CoprocNodeEffect | sh_expand/bash_expand.py:363-366 | the summary for a coprocess: the name, then the body |
| CompileProps.GroupNodeEffect | sh_expand/bash_expand.py:374-377 | the summary for a group: the body, then its redirections |
| CompileProps.NodesEffect | sh_expand/bash_expand.py:243-245 | a list of trees: the probes and renderings of each tree in turn; unchanged when nothing is probed |
| CompileProps.CaseEffect | sh_expand/bash_expand.py:454-457 | a `case` arm: the pattern, then the body |
| CompileProps.CasesEffect | sh_expand/bash_expand.py:448-451 | the arms in order; unchanged when nothing is probed |
| CompileProps.ExpandCommandEffect | sh_expand/bash_expand.py:48-53 | on success the mirror was sent the optional `source` of the environment file first, then exactly the probe lines of the tree; the variable file gains exactly the renderings of the tree's assignments |
| CompileProps.QuietTreeIdentity | sh_expand/bash_expand.py:194-240 | a tree with no word to expand is returned unchanged; the only effect is its assignments written to the file |
| CompileProps.WordsProbesEmpty | sh_expand/bash_expand.py:380-391 | a word list sends no probe exactly when no word in it should expand |
| CompileProps.ArgumentsIdentity | sh_expand/bash_expand.py:380-391 | arguments none of which should expand are returned unchanged, and the session is untouched |
| CompileProps.EachShape | sh_expand/bash_expand.py:385-390 | each compiled field is the word itself when it does not expand, and an expansion list when it does |
| CompileProps.EachStep | sh_expand/bash_expand.py:384-385 | the i-th argument is compiled in the session state reached after the arguments before it |
| Compiler.ContributionOf | sh_expand/bash_expand.py:386-390 | what an argument adds to the output: its expansion list spliced in when it should expand, the word itself appended otherwise |
| Compiler.CompileCommandArgument | sh_expand/bash_expand.py:396-403 | the method's result and new session state are those of `CompileSpec.CompileArgument` |
| Compiler.CompileCommandArguments | sh_expand/bash_expand.py:380-391 | the loop computes `CompileSpec.CompileArguments`: result and session state |
| Compiler.CompileOptArgument | sh_expand/bash_expand.py:342-352 | equals `CompileSpec.CompileOptArgument` |
| Compiler.CompileOperand | sh_expand/bash_expand.py:463-464 | equals `CompileSpec.CompileOperand` |
| Compiler.CompileRedirectionFile | sh_expand/bash_expand.py:460-466 | equals `CompileSpec.CompileRedirection` on a file redirection |
| Compiler.CompileRedirectionDup | sh_expand/bash_expand.py:469-476 | equals `CompileSpec.CompileRedirection` on a dup redirection |
| Compiler.CompileRedirectionHere | sh_expand/bash_expand.py:479-485 | equals `CompileSpec.CompileRedirection` on a here-document |
| Compiler.CompileRedirectionSingleArg | sh_expand/bash_expand.py:488-493 | equals `CompileSpec.CompileRedirection` on a single-operand redirection |
| Compiler.CompileRedirection | sh_expand/bash_expand.py:432-445 | equals `CompileSpec.CompileRedirection` |
| Compiler.CompileRedirections | sh_expand/bash_expand.py:426-429 | the loop computes `CompileSpec.CompileRedirections` |
| Compiler.CompileCommandAssignment | sh_expand/bash_expand.py:418-423 | equals `CompileSpec.CompileAssignment` |
| Compiler.CompileCommandAssignments | sh_expand/bash_expand.py:410-415 | the loop computes `CompileSpec.CompileAssignments` |
| Compiler.CompileNode | sh_expand/bash_expand.py:194-240 | equals `CompileSpec.CompileNode` |
| Compiler.CompilePipeNode | sh_expand/bash_expand.py:243-245 | the loop computes `CompileSpec.CompilePipeNode` |
| Compiler.CompileCommandNode | sh_expand/bash_expand.py:248-252 | equals `CompileSpec.CompileCommandNode` |
| Compiler.CompileSubshellNode | sh_expand/bash_expand.py:255-257 | equals `CompileSpec.CompileSubshellNode` |
| Compiler.CompileAndNode | sh_expand/bash_expand.py:260-263 | equals `CompileSpec.CompileAndNode` |
| Compiler.CompileOrNode | sh_expand/bash_expand.py:266-269 | equals `CompileSpec.CompileOrNode` |
| Compiler.CompileSemiNode | sh_expand/bash_expand.py:272-275 | equals `CompileSpec.CompileSemiNode` |
| Compiler.CompileNotNode | sh_expand/bash_expand.py:278-280 | equals `CompileSpec.CompileNotNode` |
| Compiler.CompileRedirNode | sh_expand/bash_expand.py:283-286 | equals `CompileSpec.CompileRedirNode` |
| Compiler.CompileBackgroundNode | sh_expand/bash_expand.py:289-292 | equals `CompileSpec.CompileBackgroundNode` |
| Compiler.CompileDefunNode | sh_expand/bash_expand.py:295-298 | equals `CompileSpec.CompileDefunNode` |
| Compiler.CompileForNode | sh_expand/bash_expand.py:301-306 | equals `CompileSpec.CompileForNode` |
| Compiler.CompileWhileNode | sh_expand/bash_expand.py:309-312 | equals `CompileSpec.CompileWhileNode` |
| Compiler.CompileIfNode | sh_expand/bash_expand.py:315-321 | equals `CompileSpec.CompileIfNode` |
| Compiler.CompileCaseNode | sh_expand/bash_expand.py:324-327 | equals `CompileSpec.CompileCaseNode` |
| Compiler.CompileSelectNode | sh_expand/bash_expand.py:330-334 | equals `CompileSpec.CompileSelectNode` |
| Compiler.CompileArithNode | sh_expand/bash_expand.py:337-339 | equals `CompileSpec.CompileArithNode` |
| Compiler.CompileCondNode | sh_expand/bash_expand.py:342-352 | equals `CompileSpec.CompileCondNode` |
| Compiler.CompileArithForNode | sh_expand/bash_expand.py:355-360 | equals `CompileSpec.CompileArithForNode` |
| Compiler.CompileCoprocNode | sh_expand/bash_expand.py:363-366 | equals `CompileSpec.CompileCoprocNode` |
| Compiler.CompileTimeNode | sh_expand/bash_expand.py:369-371 | equals `CompileSpec.CompileTimeNode` |
| Compiler.CompileGroupNode | sh_expand/bash_expand.py:374-377 | equals `CompileSpec.CompileGroupNode` |
| Compiler.CompileCommandCase | sh_expand/bash_expand.py:454-457 | equals `CompileSpec.CompileCase` |
| Compiler.CompileCommandCases | sh_expand/bash_expand.py:448-451 | the loop computes `CompileSpec.CompileCases` |
| Compiler.ExpandCommand | sh_expand/bash_expand.py:48-53 | equals `CompileSpec.ExpandCommand`, whose effect `CompileProps.ExpandCommandEffect` states |
| Findings.CloseWithoutDebugAsWritten | sh_expand/bash_expand.py:116-121 | close as written, on a session opened without debug: it fails, and the interpreter and the file are left behind |
| Findings.CloseWithoutDebug | sh_expand/bash_expand.py:116-121 | the corrected close on the same session succeeds and leaves nothing behind |
| Findings.RefillAfterSourceAsWritten | sh_expand/bash_expand.py:127-137 | write `x=1`, source, write `y=2`: as written the file holds four NULs before `y=2` |
| Findings.WriteAfterTruncate | sh_expand/bash_expand.py:129-137 | a write to an emptied file whose position was left at `pos` lands after `pos` NUL characters |
| Findings.RefillAfterSource | sh_expand/bash_expand.py:127-137 | with the file rewound, the same run leaves exactly `y=2` and a line feed |

## Left out

- The `pexpect` process itself is left out: spawning, the terminal, timeouts and character encoding. The process is the `Bash` oracle, and an `expect` that would time out is `NoPrompt`.
- Temporary file names (`mkstemp`, `temp_dir`) are left out. `Open` takes the chosen path as a parameter.
- The debug log file, `make_temp_file`, `log` and `default_log` are left out. Only whether a log file exists is modelled, through `debug`.
- The `open=True` keyword of `__init__` is left out. It only calls `open` at the end of construction, which the constructor followed by `Open` models.
- `AssignNode.pretty()` belongs to the parser's library, which is not part of this model. It is the `pretty` parameter.
- The compile handlers overwrite the fields of the parser's node objects in place and return the same object. The model returns a rebuilt value instead, so it says nothing about object identity or about aliasing between nodes.
- Python's write buffering of the variable file is left out. A write is visible to the next `source` at once. Nothing flushes `var_file` before the `source` line at sh_expand/bash_expand.py:134, so the interpreter may read an empty or partial file. This is probably a third defect, but this model cannot show it and it is not proved.
- File positions are counted in characters, not in encoded bytes.
- A surrogate code point passes `chr` but fails at UTF-8 encoding in `sendline`. The model rejects it with `InvalidCode` before anything is sent. On a closed session the source reaches `assert self.is_open` in `expand_word` first and reports that (`NotOpen`); the model reports `InvalidCode`. The session state is the same in both cases. Codes outside `chr`'s range fail in `chr` before the assertion, as in the model.
- The handlers' argument annotations (`list[CArgChar]`) are taken as the precondition that every word the compiler reads is raw (`Ast.RawNode`). The body of a `for` loop is never read, so nothing is required of it.
- `If.cond` and `While.test` are passed to `compile_command_argument` in the code, so the model treats them as words (`Field`).
- Some names differ from the source. `CArgChar.char` is the field `code`. The `body` of an arithmetic node is the field `terms`. The `argument` of a `case` node is `subject`. The `cond` of an arithmetic `for` is `condition`.
- The dispatcher knows 21 node names, including `Redir`. All 21 are modelled.
- Pipe items are compiled one after another in the same session, with no scoping of what one item assigns.
- `sh_expand/util.py`, `run_tests.py` and `setup.py` are not part of this model. Neither are the parser's node classes, nor the package's other expansion modules.
- CompileSpec.CompileCommandNode: states only the shape of the command it returns, and the same holds for the other per-kind handler functions. Their effect on the session and the file is stated in full by `CompileProps.NodeEffect` and, per kind, by `CompileProps.<Kind>NodeEffect`. Subshell, Not, Time and Arith have no lemma of their own: `CompileProps.SimpleNodeEffect` proves the first three and `CompileProps.CompoundNodeEffect` proves Arith.
- Session.BashExpansionState.UpdateBashMirrorVarsAsWritten: states no invariant. It breaks `Valid()`, which is the finding below.

## Findings

| source | as written | input that shows it | evidently intended | confidence | as-written member | corrected member |
|---|---|---|---|---|---|---|
| sh_expand/bash_expand.py:116-121 | `close` calls `self.bash_mirror.logfile.close()` even though a log file is attached only in debug mode, so `logfile` is `None` otherwise | `open()`, then `close()` on a session created with `debug=False` | close the log file only when there is one, then stop the interpreter and remove the variable file | high; not executed | Findings.CloseWithoutDebugAsWritten | Findings.CloseWithoutDebug |
| sh_expand/bash_expand.py:131-137 | `truncate(0)` empties the variable file but does not move the write position back | `update_var_file("x=1")`, `update_bash_mirror_vars()`, `update_var_file("y=2")` | the file holds `y=2\n` alone, so the next `source` re-reads only the new assignment | high; not executed | Findings.RefillAfterSourceAsWritten | Findings.RefillAfterSource |
