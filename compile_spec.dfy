/**
 * What the tree compiler computes, as functions of the tree and the session
 * state: each function returns the compiled value together with the session
 * state after it, and stops at the first failure. The methods of module
 * Compiler are proved to compute exactly these.
 */
module CompileSpec {
  import opened Wrappers
  import opened Words
  import opened Protocol
  import opened Ast
  import opened Session

  /** The pretty-printer of an assignment (`AssignNode.pretty()`). */
  type Pretty = Assign -> string

  // ---------------------------------------------------------------------------
  // Arguments

  /** One word per expanded string, each holding a single quoted character. */
  function QuoteAll(results: seq<string>): (ws: seq<Word>)
    ensures |ws| == |results|
    ensures forall i :: 0 <= i < |results| ==>
      |ws[i]| == 1 && ws[i][0].QArgChar? && CodesToText(ws[i][0].arg) == Ok(results[i])
  {
    seq(|results|, i requires 0 <= i < |results| => [StrToQuotedArgChar(results[i])])
  }

  /** `compile_command_argument`: a word that needs no expansion comes back
      as it is and nothing is sent; any other word is probed as text, and every
      string the probe returns becomes one word of one quoted character, in the
      probe's order. */
  function CompileArgument(bash: Bash, a: Word, m: Mirror): (r: Run<Field>)
    requires IsRaw(a)
    ensures !ShouldExpand(a) ==> r == Run(Ok(Single(a)), m)
    ensures ShouldExpand(a) && WordText(a).Err? ==> r == Run(Err(WordText(a).error), m)
    ensures ShouldExpand(a) && WordText(a).Ok? ==>
      var probe := ExpandWordStep(bash, m, WordText(a).value);
      r.after == probe.after &&
      (probe.result.Err? ==> r.result == Err(probe.result.error)) &&
      (probe.result.Ok? ==>
         (r.result.Ok? && r.result.value.Expanded? &&
          |r.result.value.words| == |probe.result.value| &&
          forall i :: 0 <= i < |probe.result.value| ==>
            |r.result.value.words[i]| == 1 && r.result.value.words[i][0].QArgChar? &&
            CodesToText(r.result.value.words[i][0].arg) == Ok(probe.result.value[i])))
  {
    if !ShouldExpand(a) then Run(Ok(Single(a)), m)
    else
      match WordText(a)
      case Err(e) => Run(Err(e), m)
      case Ok(text) =>
        var expanded :- ExpandWordStep(bash, m, text);
        Run(Ok(Expanded(QuoteAll(expanded.0))), expanded.1)
  }

  /** `compile_command_argument` applied to each word in turn. */
  function CompileEach(bash: Bash, args: seq<Word>, m: Mirror): (r: Run<seq<Field>>)
    requires RawWords(args)
    ensures r.result.Ok? ==> |r.result.value| == |args|
    decreases |args|
  {
    if args == [] then Run(Ok([]), m)
    else
      var first :- CompileArgument(bash, args[0], m);
      var rest :- CompileEach(bash, args[1..], first.1);
      Run(Ok([first.0] + rest.0), rest.1)
  }

  /** What one compiled argument contributes to the argument list: itself when
      it was kept, the words of its expansion when it was expanded. */
  function Contribution(f: Field): seq<Word>
  {
    match f
    case Single(w) => [w]
    case Expanded(ws) => ws
  }

  function Flatten(fs: seq<Field>): seq<Word>
  {
    if fs == [] then [] else Contribution(fs[0]) + Flatten(fs[1..])
  }

  /** `compile_command_arguments`: the contributions of the arguments, in order. */
  function CompileArguments(bash: Bash, args: seq<Word>, m: Mirror): (r: Run<seq<Word>>)
    requires RawWords(args)
  {
    var fields :- CompileEach(bash, args, m);
    Run(Ok(Flatten(fields.0)), fields.1)
  }

  /** A `cond` operand is compiled only when present and non-empty; otherwise
      it becomes absent. */
  function CompileOptArgument(bash: Bash, f: Option<Field>, m: Mirror): (r: Run<Option<Field>>)
    requires RawOptField(f)
    ensures (f.None? || |f.value.word| == 0) ==> r == Run(Ok(None), m)
    ensures r.result.Ok? ==> (r.result.value.Some? <==> f.Some? && |f.value.word| > 0)
  {
    if f.Some? && |f.value.word| > 0 then
      var c :- CompileArgument(bash, f.value.word, m);
      Run(Ok(Some(c.0)), c.1)
    else Run(Ok(None), m)
  }

  // ---------------------------------------------------------------------------
  // Redirections

  /** A `"var"` operand has its word compiled; a fixed one is left alone. */
  function CompileOperand(bash: Bash, o: Operand, m: Mirror): (r: Run<Operand>)
    requires RawOperand(o)
    ensures o.Fixed? ==> r == Run(Ok(o), m)
    ensures r.result.Ok? ==> r.result.value.Var? == o.Var?
  {
    match o
    case Fixed(_) => Run(Ok(o), m)
    case Var(arg) =>
      var c :- CompileArgument(bash, arg.word, m);
      Run(Ok(Var(c.0)), c.1)
  }

  /** `compile_redirection`: dispatch on the redirection type; any type but
      the four known ones fails before anything is sent. */
  function CompileRedirection(bash: Bash, redir: Redirection, m: Mirror): (r: Run<Redirection>)
    requires RawRedirection(redir)
    ensures RedirType(redir) !in RedirTypes ==> r == Run(Err(UnknownRedirection(RedirType(redir))), m)
    ensures RedirType(redir) in RedirTypes && r.result.Err? ==> !r.result.error.UnknownRedirection?
    ensures r.result.Ok? ==> RedirType(r.result.value) == RedirType(redir)
  {
    match redir
    case FileRedir(fd, arg) =>
      var fd' :- CompileOperand(bash, fd, m);
      var arg' :- CompileArgument(bash, arg.word, fd'.1);
      Run(Ok(FileRedir(fd'.0, arg'.0)), arg'.1)
    case DupRedir(fd, arg) =>
      var fd' :- CompileOperand(bash, fd, m);
      var arg' :- CompileOperand(bash, arg, fd'.1);
      Run(Ok(DupRedir(fd'.0, arg'.0)), arg'.1)
    case HeredocRedir(fd, arg) =>
      var fd' :- CompileOperand(bash, fd, m);
      var arg' :- CompileArgument(bash, arg.word, fd'.1);
      Run(Ok(HeredocRedir(fd'.0, arg'.0)), arg'.1)
    case SingleArgRedir(fd) =>
      var fd' :- CompileOperand(bash, fd, m);
      Run(Ok(SingleArgRedir(fd'.0)), fd'.1)
    case OtherRedir(t) => Run(Err(UnknownRedirection(t)), m)
  }

  /** `compile_redirections`: each redirection in turn. */
  function CompileRedirections(bash: Bash, rs: seq<Redirection>, m: Mirror): (r: Run<seq<Redirection>>)
    requires RawRedirections(rs)
    ensures r.result.Ok? ==> |r.result.value| == |rs|
    decreases |rs|
  {
    if rs == [] then Run(Ok([]), m)
    else
      var first :- CompileRedirection(bash, rs[0], m);
      var rest :- CompileRedirections(bash, rs[1..], first.1);
      Run(Ok([first.0] + rest.0), rest.1)
  }

  // ---------------------------------------------------------------------------
  // Assignments

  /** `compile_command_assignment`: compile the value, then buffer the printed
      assignment in the variable file. */
  function CompileAssignment(bash: Bash, pretty: Pretty, a: Assign, m: Mirror): (r: Run<Assign>)
    requires RawField(a.val)
    ensures !m.isOpen ==> r.result.Err?
    ensures r.result.Ok? ==> r.result.value.name == a.name && r.after.isOpen
  {
    var v :- CompileArgument(bash, a.val.word, m);
    var assign := a.(val := v.0);
    var u :- UpdateVarFileStep(v.1, pretty(assign));
    Run(Ok(assign), u.1)
  }

  /** `compile_command_assignments`: each assignment in turn. */
  function CompileAssignments(bash: Bash, pretty: Pretty, assigns: seq<Assign>, m: Mirror): (r: Run<seq<Assign>>)
    requires RawAssigns(assigns)
    ensures r.result.Ok? ==> |r.result.value| == |assigns|
    decreases |assigns|
  {
    if assigns == [] then Run(Ok([]), m)
    else
      var first :- CompileAssignment(bash, pretty, assigns[0], m);
      var rest :- CompileAssignments(bash, pretty, assigns[1..], first.1);
      Run(Ok([first.0] + rest.0), rest.1)
  }

  // ---------------------------------------------------------------------------
  // Nodes

  /** `compile_node`: dispatch on the node kind to its handler; a node of any
      other kind fails before anything is sent. Every handler returns a node of
      the kind it was given. */
  function CompileNode(bash: Bash, pretty: Pretty, n: Node, m: Mirror): (r: Run<Node>)
    requires RawNode(n)
    ensures NodeName(n) !in NodeNames ==> r == Run(Err(UnknownNode(NodeName(n))), m)
    ensures r.result.Ok? ==> NodeName(r.result.value) == NodeName(n)
    decreases n, 1
  {
    NodeNameKnown(n);
    match n
    case Pipe(_) => CompilePipeNode(bash, pretty, n, m)
    case Command(_, _, _) => CompileCommandNode(bash, pretty, n, m)
    case Subshell(_) => CompileSubshellNode(bash, pretty, n, m)
    case And(_, _) => CompileAndNode(bash, pretty, n, m)
    case Or(_, _) => CompileOrNode(bash, pretty, n, m)
    case Semi(_, _) => CompileSemiNode(bash, pretty, n, m)
    case Not(_) => CompileNotNode(bash, pretty, n, m)
    case Redir(_, _) => CompileRedirNode(bash, pretty, n, m)
    case Background(_, _) => CompileBackgroundNode(bash, pretty, n, m)
    case Defun(_, _) => CompileDefunNode(bash, pretty, n, m)
    case For(_, _, _) => CompileForNode(bash, n, m)
    case While(_, _) => CompileWhileNode(bash, pretty, n, m)
    case If(_, _, _) => CompileIfNode(bash, pretty, n, m)
    case Case(_, _) => CompileCaseNode(bash, pretty, n, m)
    case Select(_, _, _) => CompileSelectNode(bash, pretty, n, m)
    case Arith(_) => CompileArithNode(bash, n, m)
    case Cond(_, _, _) => CompileCondNode(bash, n, m)
    case ArithFor(_, _, _, _) => CompileArithForNode(bash, pretty, n, m)
    case Coproc(_, _) => CompileCoprocNode(bash, pretty, n, m)
    case Time(_) => CompileTimeNode(bash, pretty, n, m)
    case Group(_, _) => CompileGroupNode(bash, pretty, n, m)
    case Other(name) => Run(Err(UnknownNode(name)), m)
  }

  /** `compile_node_pipe`: the items in order, all in the one session. */
  function CompilePipeNode(bash: Bash, pretty: Pretty, n: Node, m: Mirror): (r: Run<Node>)
    requires n.Pipe? && RawNode(n)
    ensures r.result.Ok? ==> r.result.value.Pipe? && |r.result.value.items| == |n.items|
    decreases n, 0
  {
    var items' :- CompileNodes(bash, pretty, n.items, m);
    Run(Ok(Pipe(items'.0)), items'.1)
  }

  /** `compile_node_command`: assignments, then arguments, then redirections. */
  function CompileCommandNode(bash: Bash, pretty: Pretty, n: Node, m: Mirror): (r: Run<Node>)
    requires n.Command? && RawNode(n)
    ensures r.result.Ok? ==>
      (r.result.value.Command? &&
       |r.result.value.assignments| == |n.assignments| && |r.result.value.redirList| == |n.redirList|)
    decreases n, 0
  {
    var assigns' :- CompileAssignments(bash, pretty, n.assignments, m);
    var args' :- CompileArguments(bash, n.arguments, assigns'.1);
    var rs' :- CompileRedirections(bash, n.redirList, args'.1);
    Run(Ok(Command(assigns'.0, args'.0, rs'.0)), rs'.1)
  }

  /** `compile_node_subshell`. */
  function CompileSubshellNode(bash: Bash, pretty: Pretty, n: Node, m: Mirror): (r: Run<Node>)
    requires n.Subshell? && RawNode(n)
    ensures r.result.Ok? ==> r.result.value.Subshell?
    decreases n, 0
  {
    var body' :- CompileNode(bash, pretty, n.body, m);
    Run(Ok(Subshell(body'.0)), body'.1)
  }

  /** `compile_node_and`: left operand, then right operand. */
  function CompileAndNode(bash: Bash, pretty: Pretty, n: Node, m: Mirror): (r: Run<Node>)
    requires n.And? && RawNode(n)
    ensures r.result.Ok? ==> r.result.value.And?
    decreases n, 0
  {
    var l' :- CompileNode(bash, pretty, n.leftOperand, m);
    var r' :- CompileNode(bash, pretty, n.rightOperand, l'.1);
    Run(Ok(And(l'.0, r'.0)), r'.1)
  }

  /** `compile_node_or`: left operand, then right operand. */
  function CompileOrNode(bash: Bash, pretty: Pretty, n: Node, m: Mirror): (r: Run<Node>)
    requires n.Or? && RawNode(n)
    ensures r.result.Ok? ==> r.result.value.Or?
    decreases n, 0
  {
    var l' :- CompileNode(bash, pretty, n.leftOperand, m);
    var r' :- CompileNode(bash, pretty, n.rightOperand, l'.1);
    Run(Ok(Or(l'.0, r'.0)), r'.1)
  }

  /** `compile_node_semi`: left operand, then right operand. */
  function CompileSemiNode(bash: Bash, pretty: Pretty, n: Node, m: Mirror): (r: Run<Node>)
    requires n.Semi? && RawNode(n)
    ensures r.result.Ok? ==> r.result.value.Semi?
    decreases n, 0
  {
    var l' :- CompileNode(bash, pretty, n.leftOperand, m);
    var r' :- CompileNode(bash, pretty, n.rightOperand, l'.1);
    Run(Ok(Semi(l'.0, r'.0)), r'.1)
  }

  /** `compile_node_not`. */
  function CompileNotNode(bash: Bash, pretty: Pretty, n: Node, m: Mirror): (r: Run<Node>)
    requires n.Not? && RawNode(n)
    ensures r.result.Ok? ==> r.result.value.Not?
    decreases n, 0
  {
    var body' :- CompileNode(bash, pretty, n.body, m);
    Run(Ok(Not(body'.0)), body'.1)
  }

  /** `compile_node_redir`: the node, then its redirections. */
  function CompileRedirNode(bash: Bash, pretty: Pretty, n: Node, m: Mirror): (r: Run<Node>)
    requires n.Redir? && RawNode(n)
    ensures r.result.Ok? ==> r.result.value.Redir? && |r.result.value.redirList| == |n.redirList|
    decreases n, 0
  {
    var node' :- CompileNode(bash, pretty, n.node, m);
    var rs' :- CompileRedirections(bash, n.redirList, node'.1);
    Run(Ok(Redir(node'.0, rs'.0)), rs'.1)
  }

  /** `compile_node_background`: the node, then its redirections. */
  function CompileBackgroundNode(bash: Bash, pretty: Pretty, n: Node, m: Mirror): (r: Run<Node>)
    requires n.Background? && RawNode(n)
    ensures r.result.Ok? ==> r.result.value.Background? && |r.result.value.redirList| == |n.redirList|
    decreases n, 0
  {
    var node' :- CompileNode(bash, pretty, n.node, m);
    var rs' :- CompileRedirections(bash, n.redirList, node'.1);
    Run(Ok(Background(node'.0, rs'.0)), rs'.1)
  }

  /** `compile_node_defun`: the name, then the body. */
  function CompileDefunNode(bash: Bash, pretty: Pretty, n: Node, m: Mirror): (r: Run<Node>)
    requires n.Defun? && RawNode(n)
    ensures r.result.Ok? ==> r.result.value.Defun?
    decreases n, 0
  {
    var name' :- CompileArgument(bash, n.name.word, m);
    var body' :- CompileNode(bash, pretty, n.body, name'.1);
    Run(Ok(Defun(name'.0, body'.0)), body'.1)
  }

  /** `compile_node_for`: the variable, then the word list; the body is left
      exactly as it was. */
  function CompileForNode(bash: Bash, n: Node, m: Mirror): (r: Run<Node>)
    requires n.For? && RawNode(n)
    ensures r.result.Ok? ==> r.result.value.For? && r.result.value.body == n.body
    decreases n, 0
  {
    var variable' :- CompileArgument(bash, n.variable.word, m);
    var args' :- CompileArguments(bash, n.argument, variable'.1);
    Run(Ok(For(variable'.0, args'.0, n.body)), args'.1)
  }

  /** `compile_node_while`: the test, then the body. */
  function CompileWhileNode(bash: Bash, pretty: Pretty, n: Node, m: Mirror): (r: Run<Node>)
    requires n.While? && RawNode(n)
    ensures r.result.Ok? ==> r.result.value.While?
    decreases n, 0
  {
    var test' :- CompileArgument(bash, n.test.word, m);
    var body' :- CompileNode(bash, pretty, n.body, test'.1);
    Run(Ok(While(test'.0, body'.0)), body'.1)
  }

  /** `compile_node_if`: the condition, the then branch, and the else branch
      when there is one. */
  function CompileIfNode(bash: Bash, pretty: Pretty, n: Node, m: Mirror): (r: Run<Node>)
    requires n.If? && RawNode(n)
    ensures r.result.Ok? ==> r.result.value.If? && r.result.value.elseB.Some? == n.elseB.Some?
    decreases n, 0
  {
    var cond' :- CompileArgument(bash, n.cond.word, m);
    var then' :- CompileNode(bash, pretty, n.thenB, cond'.1);
    if n.elseB.Some? then
      var else' :- CompileNode(bash, pretty, n.elseB.value, then'.1);
      Run(Ok(If(cond'.0, then'.0, Some(else'.0))), else'.1)
    else Run(Ok(If(cond'.0, then'.0, None)), then'.1)
  }

  /** `compile_node_case`: the subject, then the arms. */
  function CompileCaseNode(bash: Bash, pretty: Pretty, n: Node, m: Mirror): (r: Run<Node>)
    requires n.Case? && RawNode(n)
    ensures r.result.Ok? ==> r.result.value.Case? && |r.result.value.cases| == |n.cases|
    decreases n, 0
  {
    var subject' :- CompileArgument(bash, n.subject.word, m);
    var cases' :- CompileCases(bash, pretty, n.cases, subject'.1);
    Run(Ok(Case(subject'.0, cases'.0)), cases'.1)
  }

  /** `compile_node_select`: the variable, the body, then the word list. */
  function CompileSelectNode(bash: Bash, pretty: Pretty, n: Node, m: Mirror): (r: Run<Node>)
    requires n.Select? && RawNode(n)
    ensures r.result.Ok? ==> r.result.value.Select?
    decreases n, 0
  {
    var variable' :- CompileArgument(bash, n.variable.word, m);
    var body' :- CompileNode(bash, pretty, n.body, variable'.1);
    var mapList' :- CompileArguments(bash, n.mapList, body'.1);
    Run(Ok(Select(variable'.0, body'.0, mapList'.0)), mapList'.1)
  }

  /** `compile_node_arith`: the terms as an argument list. */
  function CompileArithNode(bash: Bash, n: Node, m: Mirror): (r: Run<Node>)
    requires n.Arith? && RawNode(n)
    ensures r.result.Ok? ==> r.result.value.Arith?
    decreases n, 0
  {
    var terms' :- CompileArguments(bash, n.terms, m);
    Run(Ok(Arith(terms'.0)), terms'.1)
  }

  /** `compile_node_cond`: operator, left and right, each compiled only when
      present and non-empty. */
  function CompileCondNode(bash: Bash, n: Node, m: Mirror): (r: Run<Node>)
    requires n.Cond? && RawNode(n)
    ensures r.result.Ok? ==> r.result.value.Cond?
    decreases n, 0
  {
    var op' :- CompileOptArgument(bash, n.op, m);
    var left' :- CompileOptArgument(bash, n.left, op'.1);
    var right' :- CompileOptArgument(bash, n.right, left'.1);
    Run(Ok(Cond(op'.0, left'.0, right'.0)), right'.1)
  }

  /** `compile_node_arith_for`: init, condition and step lists, then the action. */
  function CompileArithForNode(bash: Bash, pretty: Pretty, n: Node, m: Mirror): (r: Run<Node>)
    requires n.ArithFor? && RawNode(n)
    ensures r.result.Ok? ==> r.result.value.ArithFor?
    decreases n, 0
  {
    assert RawWords(n.init) && RawWords(n.condition) && RawWords(n.step) && RawNode(n.action);
    var init' :- CompileArguments(bash, n.init, m);
    var condition' :- CompileArguments(bash, n.condition, init'.1);
    var step' :- CompileArguments(bash, n.step, condition'.1);
    var action' :- CompileNode(bash, pretty, n.action, step'.1);
    Run(Ok(ArithFor(init'.0, condition'.0, step'.0, action'.0)), action'.1)
  }

  /** `compile_node_coproc`: the name, then the body. */
  function CompileCoprocNode(bash: Bash, pretty: Pretty, n: Node, m: Mirror): (r: Run<Node>)
    requires n.Coproc? && RawNode(n)
    ensures r.result.Ok? ==> r.result.value.Coproc?
    decreases n, 0
  {
    var name' :- CompileArgument(bash, n.name.word, m);
    var body' :- CompileNode(bash, pretty, n.body, name'.1);
    Run(Ok(Coproc(name'.0, body'.0)), body'.1)
  }

  /** `compile_node_time`. */
  function CompileTimeNode(bash: Bash, pretty: Pretty, n: Node, m: Mirror): (r: Run<Node>)
    requires n.Time? && RawNode(n)
    ensures r.result.Ok? ==> r.result.value.Time?
    decreases n, 0
  {
    var command' :- CompileNode(bash, pretty, n.command, m);
    Run(Ok(Time(command'.0)), command'.1)
  }

  /** `compile_node_group`: the body, then its redirections. */
  function CompileGroupNode(bash: Bash, pretty: Pretty, n: Node, m: Mirror): (r: Run<Node>)
    requires n.Group? && RawNode(n)
    ensures r.result.Ok? ==> r.result.value.Group? && |r.result.value.redirections| == |n.redirections|
    decreases n, 0
  {
    var body' :- CompileNode(bash, pretty, n.body, m);
    var rs' :- CompileRedirections(bash, n.redirections, body'.1);
    Run(Ok(Group(body'.0, rs'.0)), rs'.1)
  }

  /** The items of a pipeline, each in turn. */
  function CompileNodes(bash: Bash, pretty: Pretty, items: seq<Node>, m: Mirror): (r: Run<seq<Node>>)
    requires forall i :: 0 <= i < |items| ==> RawNode(items[i])
    ensures r.result.Ok? ==> |r.result.value| == |items|
    decreases items
  {
    if items == [] then Run(Ok([]), m)
    else
      var first :- CompileNode(bash, pretty, items[0], m);
      var rest :- CompileNodes(bash, pretty, items[1..], first.1);
      Run(Ok([first.0] + rest.0), rest.1)
  }

  /** `compile_command_case`: the pattern, then the body. */
  function CompileCase(bash: Bash, pretty: Pretty, c: CaseItem, m: Mirror): Run<CaseItem>
    requires RawField(c.pattern) && RawNode(c.body)
    decreases c
  {
    var pattern' :- CompileArgument(bash, c.pattern.word, m);
    var body' :- CompileNode(bash, pretty, c.body, pattern'.1);
    Run(Ok(CaseItem(pattern'.0, body'.0)), body'.1)
  }

  /** `compile_command_cases`: each arm in turn. */
  function CompileCases(bash: Bash, pretty: Pretty, cases: seq<CaseItem>, m: Mirror): (r: Run<seq<CaseItem>>)
    requires forall i :: 0 <= i < |cases| ==> RawField(cases[i].pattern) && RawNode(cases[i].body)
    ensures r.result.Ok? ==> |r.result.value| == |cases|
    decreases cases
  {
    if cases == [] then Run(Ok([]), m)
    else
      var first :- CompileCase(bash, pretty, cases[0], m);
      var rest :- CompileCases(bash, pretty, cases[1..], first.1);
      Run(Ok([first.0] + rest.0), rest.1)
  }

  /** `expand_command`: source the environment file first when one is given,
      then compile the tree. */
  function ExpandCommand(bash: Bash, pretty: Pretty, ast: Node, envVarsFile: Option<string>, m: Mirror): Run<Node>
    requires RawNode(ast)
  {
    if envVarsFile.Some? then
      var out :- RunLineStep(bash, m, SourceCommand(envVarsFile.value));
      CompileNode(bash, pretty, ast, out.1)
    else CompileNode(bash, pretty, ast, m)
  }
}
