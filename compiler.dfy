/**
 * The tree compiler as it runs: every handler is a method over the session
 * object, compiling the node's fields in the order the source does and
 * stopping at the first failure. Each is proved to leave the result and the
 * session exactly as its function in module CompileSpec says.
 */
module Compiler {
  import opened Wrappers
  import opened Words
  import opened Protocol
  import opened Ast
  import opened Session
  import Spec = CompileSpec

  /** The compiled items so far, put in front of what the rest compiles to. */
  function Prepend<T>(done: seq<T>, r: Run<seq<T>>): Run<seq<T>>
  {
    if r.result.Ok? then Run(Ok(done + r.result.value), r.after) else r
  }

  lemma PrependSnoc<T>(done: seq<T>, x: T, r: Run<seq<T>>)
    ensures Prepend(done, Prepend([x], r)) == Prepend(done + [x], r)
  {
    if r.result.Ok? {
      assert done + ([x] + r.result.value) == (done + [x]) + r.result.value;
    }
  }

  lemma PrependEnds<T>(done: seq<T>, r: Run<seq<T>>, s: Mirror)
    ensures Prepend([], r) == r
    ensures Prepend(done, Run(Ok([]), s)) == Run(Ok(done), s)
  {
    if r.result.Ok? {
      assert [] + r.result.value == r.result.value;
    }
    assert done + [] == done;
  }

  // ---------------------------------------------------------------------------
  // Arguments

  /** `compile_command_argument`. */
  method CompileCommandArgument(st: BashExpansionState, argument: Word) returns (r: Result<Field>)
    requires IsRaw(argument)
    modifies st`sent, st`unread
    ensures Run(r, st.State()) == Spec.CompileArgument(st.bash, argument, old(st.State()))
  {
    if !ShouldExpand(argument) {
      return Ok(Single(argument));
    }
    var text :- WordText(argument);
    var expanded :- st.ExpandWord(text);
    r := Ok(Expanded(Spec.QuoteAll(expanded)));
  }

  lemma EachUnfold(bash: Bash, args: seq<Word>, i: nat, s: Mirror)
    requires RawWords(args) && i < |args|
    ensures var first := Spec.CompileArgument(bash, args[i], s);
      Spec.CompileEach(bash, args[i..], s) ==
        if first.result.Ok? then Prepend([first.result.value], Spec.CompileEach(bash, args[i + 1..], first.after))
        else Run(Err(first.result.error), first.after)
  {
    assert args[i..][0] == args[i] && args[i..][1..] == args[i + 1..];
  }

  lemma FlattenSnoc(fs: seq<Field>, f: Field)
    ensures Spec.Flatten(fs + [f]) == Spec.Flatten(fs) + Spec.Contribution(f)
    decreases |fs|
  {
    if fs == [] {
      assert [] + [f] == [f];
    } else {
      assert (fs + [f])[0] == fs[0] && (fs + [f])[1..] == fs[1..] + [f];
      FlattenSnoc(fs[1..], f);
    }
  }

  lemma ContributionOf(bash: Bash, argument: Word, s: Mirror, compiled: Field)
    requires IsRaw(argument) && Spec.CompileArgument(bash, argument, s).result == Ok(compiled)
    ensures ShouldExpand(argument) ==> compiled.Expanded? && Spec.Contribution(compiled) == compiled.words
    ensures !ShouldExpand(argument) ==> compiled == Single(argument) && Spec.Contribution(compiled) == [compiled.word]
  {
  }

  /** `compile_command_arguments`: a loop that appends each kept argument
      and extends by the words of each expanded one. */
  method CompileCommandArguments(st: BashExpansionState, arguments: seq<Word>) returns (r: Result<seq<Word>>)
    requires RawWords(arguments)
    modifies st`sent, st`unread
    ensures Run(r, st.State()) == Spec.CompileArguments(st.bash, arguments, old(st.State()))
  {
    ghost var m0 := st.State();
    ghost var fields: seq<Field> := [];
    var args: seq<Word> := [];
    assert arguments[0..] == arguments;
    PrependEnds(fields, Spec.CompileEach(st.bash, arguments, st.State()), st.State());
    var i := 0;
    while i < |arguments|
      invariant i <= |arguments|
      invariant args == Spec.Flatten(fields)
      invariant Spec.CompileEach(st.bash, arguments, m0) == Prepend(fields, Spec.CompileEach(st.bash, arguments[i..], st.State()))
    {
      EachUnfold(st.bash, arguments, i, st.State());
      ghost var s := st.State();
      var compiled :- CompileCommandArgument(st, arguments[i]);
      ContributionOf(st.bash, arguments[i], s, compiled);
      if ShouldExpand(arguments[i]) {
        args := args + compiled.words;
      } else {
        args := args + [compiled.word];
      }
      FlattenSnoc(fields, compiled);
      PrependSnoc(fields, compiled, Spec.CompileEach(st.bash, arguments[i + 1..], st.State()));
      fields := fields + [compiled];
      i := i + 1;
    }
    assert arguments[i..] == [];
    PrependEnds(fields, Spec.CompileEach(st.bash, arguments[i..], st.State()), st.State());
    r := Ok(args);
  }

  /** A `cond` operand, compiled only when present and non-empty. */
  method CompileOptArgument(st: BashExpansionState, f: Option<Field>) returns (r: Result<Option<Field>>)
    requires RawOptField(f)
    modifies st`sent, st`unread
    ensures Run(r, st.State()) == Spec.CompileOptArgument(st.bash, f, old(st.State()))
  {
    if f.Some? && |f.value.word| > 0 {
      var compiled :- CompileCommandArgument(st, f.value.word);
      return Ok(Some(compiled));
    }
    r := Ok(None);
  }

  // ---------------------------------------------------------------------------
  // Redirections

  /** The `if fd[0] == "var"` step shared by the redirection handlers. */
  method CompileOperand(st: BashExpansionState, o: Operand) returns (r: Result<Operand>)
    requires RawOperand(o)
    modifies st`sent, st`unread
    ensures Run(r, st.State()) == Spec.CompileOperand(st.bash, o, old(st.State()))
  {
    if o.Var? {
      var compiled :- CompileCommandArgument(st, o.arg.word);
      return Ok(Var(compiled));
    }
    r := Ok(o);
  }

  /** `compile_redirection_file`. */
  method CompileRedirectionFile(st: BashExpansionState, redir: Redirection) returns (r: Result<Redirection>)
    requires redir.FileRedir? && RawRedirection(redir)
    modifies st`sent, st`unread
    ensures Run(r, st.State()) == Spec.CompileRedirection(st.bash, redir, old(st.State()))
  {
    var fd :- CompileOperand(st, redir.fd);
    var arg :- CompileCommandArgument(st, redir.arg.word);
    r := Ok(FileRedir(fd, arg));
  }

  /** `compile_redirection_dup`. */
  method CompileRedirectionDup(st: BashExpansionState, redir: Redirection) returns (r: Result<Redirection>)
    requires redir.DupRedir? && RawRedirection(redir)
    modifies st`sent, st`unread
    ensures Run(r, st.State()) == Spec.CompileRedirection(st.bash, redir, old(st.State()))
  {
    var fd :- CompileOperand(st, redir.fd);
    var arg :- CompileOperand(st, redir.dupArg);
    r := Ok(DupRedir(fd, arg));
  }

  /** `compile_redirection_here`. */
  method CompileRedirectionHere(st: BashExpansionState, redir: Redirection) returns (r: Result<Redirection>)
    requires redir.HeredocRedir? && RawRedirection(redir)
    modifies st`sent, st`unread
    ensures Run(r, st.State()) == Spec.CompileRedirection(st.bash, redir, old(st.State()))
  {
    var fd :- CompileOperand(st, redir.fd);
    var arg :- CompileCommandArgument(st, redir.arg.word);
    r := Ok(HeredocRedir(fd, arg));
  }

  /** `compile_redirection_single_arg`. */
  method CompileRedirectionSingleArg(st: BashExpansionState, redir: Redirection) returns (r: Result<Redirection>)
    requires redir.SingleArgRedir? && RawRedirection(redir)
    modifies st`sent, st`unread
    ensures Run(r, st.State()) == Spec.CompileRedirection(st.bash, redir, old(st.State()))
  {
    var fd :- CompileOperand(st, redir.fd);
    r := Ok(SingleArgRedir(fd));
  }

  /** `compile_redirection`: dispatch on the redirection type. */
  method CompileRedirection(st: BashExpansionState, redir: Redirection) returns (r: Result<Redirection>)
    requires RawRedirection(redir)
    modifies st`sent, st`unread
    ensures Run(r, st.State()) == Spec.CompileRedirection(st.bash, redir, old(st.State()))
  {
    match redir
    case FileRedir(_, _) => r := CompileRedirectionFile(st, redir);
    case DupRedir(_, _) => r := CompileRedirectionDup(st, redir);
    case HeredocRedir(_, _) => r := CompileRedirectionHere(st, redir);
    case SingleArgRedir(_) => r := CompileRedirectionSingleArg(st, redir);
    case OtherRedir(t) => r := Err(UnknownRedirection(t));
  }

  lemma RedirectionsUnfold(bash: Bash, rs: seq<Redirection>, i: nat, s: Mirror)
    requires RawRedirections(rs) && i < |rs|
    ensures var first := Spec.CompileRedirection(bash, rs[i], s);
      Spec.CompileRedirections(bash, rs[i..], s) ==
        if first.result.Ok? then Prepend([first.result.value], Spec.CompileRedirections(bash, rs[i + 1..], first.after))
        else Run(Err(first.result.error), first.after)
  {
    assert rs[i..][0] == rs[i] && rs[i..][1..] == rs[i + 1..];
  }

  /** `compile_redirections`: each redirection in turn. */
  method CompileRedirections(st: BashExpansionState, redirList: seq<Redirection>) returns (r: Result<seq<Redirection>>)
    requires RawRedirections(redirList)
    modifies st`sent, st`unread
    ensures Run(r, st.State()) == Spec.CompileRedirections(st.bash, redirList, old(st.State()))
  {
    ghost var m0 := st.State();
    var done: seq<Redirection> := [];
    assert redirList[0..] == redirList;
    PrependEnds(done, Spec.CompileRedirections(st.bash, redirList, st.State()), st.State());
    var i := 0;
    while i < |redirList|
      invariant i <= |redirList|
      invariant Spec.CompileRedirections(st.bash, redirList, m0) ==
                Prepend(done, Spec.CompileRedirections(st.bash, redirList[i..], st.State()))
    {
      RedirectionsUnfold(st.bash, redirList, i, st.State());
      var compiled :- CompileRedirection(st, redirList[i]);
      PrependSnoc(done, compiled, Spec.CompileRedirections(st.bash, redirList[i + 1..], st.State()));
      done := done + [compiled];
      i := i + 1;
    }
    assert redirList[i..] == [];
    PrependEnds(done, Spec.CompileRedirections(st.bash, redirList[i..], st.State()), st.State());
    r := Ok(done);
  }

  // ---------------------------------------------------------------------------
  // Assignments

  /** `compile_command_assignment`. */
  method CompileCommandAssignment(st: BashExpansionState, pretty: Spec.Pretty, assignment: Assign)
    returns (r: Result<Assign>)
    requires RawField(assignment.val)
    modifies st`varFile, st`varPos, st`sent, st`unread
    ensures Run(r, st.State()) == Spec.CompileAssignment(st.bash, pretty, assignment, old(st.State()))
  {
    var val :- CompileCommandArgument(st, assignment.val.word);
    var compiled := assignment.(val := val);
    var written := st.UpdateVarFile(pretty(compiled));
    if written.Fail? {
      return Err(written.error);
    }
    r := Ok(compiled);
  }

  lemma AssignmentsUnfold(bash: Bash, pretty: Spec.Pretty, assigns: seq<Assign>, i: nat, s: Mirror)
    requires RawAssigns(assigns) && i < |assigns|
    ensures var first := Spec.CompileAssignment(bash, pretty, assigns[i], s);
      Spec.CompileAssignments(bash, pretty, assigns[i..], s) ==
        if first.result.Ok? then Prepend([first.result.value], Spec.CompileAssignments(bash, pretty, assigns[i + 1..], first.after))
        else Run(Err(first.result.error), first.after)
  {
    assert assigns[i..][0] == assigns[i] && assigns[i..][1..] == assigns[i + 1..];
  }

  /** `compile_command_assignments`: each assignment in turn. */
  method CompileCommandAssignments(st: BashExpansionState, pretty: Spec.Pretty, assignments: seq<Assign>)
    returns (r: Result<seq<Assign>>)
    requires RawAssigns(assignments)
    modifies st`varFile, st`varPos, st`sent, st`unread
    ensures Run(r, st.State()) == Spec.CompileAssignments(st.bash, pretty, assignments, old(st.State()))
  {
    ghost var m0 := st.State();
    var done: seq<Assign> := [];
    assert assignments[0..] == assignments;
    PrependEnds(done, Spec.CompileAssignments(st.bash, pretty, assignments, st.State()), st.State());
    var i := 0;
    while i < |assignments|
      invariant i <= |assignments|
      invariant Spec.CompileAssignments(st.bash, pretty, assignments, m0) ==
                Prepend(done, Spec.CompileAssignments(st.bash, pretty, assignments[i..], st.State()))
    {
      AssignmentsUnfold(st.bash, pretty, assignments, i, st.State());
      var compiled :- CompileCommandAssignment(st, pretty, assignments[i]);
      PrependSnoc(done, compiled, Spec.CompileAssignments(st.bash, pretty, assignments[i + 1..], st.State()));
      done := done + [compiled];
      i := i + 1;
    }
    assert assignments[i..] == [];
    PrependEnds(done, Spec.CompileAssignments(st.bash, pretty, assignments[i..], st.State()), st.State());
    r := Ok(done);
  }

  // ---------------------------------------------------------------------------
  // Nodes

  /** `compile_node`: dispatch on the node kind. */
  method CompileNode(st: BashExpansionState, pretty: Spec.Pretty, n: Node) returns (r: Result<Node>)
    requires RawNode(n)
    modifies st`varFile, st`varPos, st`sent, st`unread
    ensures Run(r, st.State()) == Spec.CompileNode(st.bash, pretty, n, old(st.State()))
    decreases n, 1
  {
    match n
    case Pipe(_) => r := CompilePipeNode(st, pretty, n);
    case Command(_, _, _) => r := CompileCommandNode(st, pretty, n);
    case Subshell(_) => r := CompileSubshellNode(st, pretty, n);
    case And(_, _) => r := CompileAndNode(st, pretty, n);
    case Or(_, _) => r := CompileOrNode(st, pretty, n);
    case Semi(_, _) => r := CompileSemiNode(st, pretty, n);
    case Not(_) => r := CompileNotNode(st, pretty, n);
    case Redir(_, _) => r := CompileRedirNode(st, pretty, n);
    case Background(_, _) => r := CompileBackgroundNode(st, pretty, n);
    case Defun(_, _) => r := CompileDefunNode(st, pretty, n);
    case For(_, _, _) => r := CompileForNode(st, pretty, n);
    case While(_, _) => r := CompileWhileNode(st, pretty, n);
    case If(_, _, _) => r := CompileIfNode(st, pretty, n);
    case Case(_, _) => r := CompileCaseNode(st, pretty, n);
    case Select(_, _, _) => r := CompileSelectNode(st, pretty, n);
    case Arith(_) => r := CompileArithNode(st, pretty, n);
    case Cond(_, _, _) => r := CompileCondNode(st, pretty, n);
    case ArithFor(_, _, _, _) => r := CompileArithForNode(st, pretty, n);
    case Coproc(_, _) => r := CompileCoprocNode(st, pretty, n);
    case Time(_) => r := CompileTimeNode(st, pretty, n);
    case Group(_, _) => r := CompileGroupNode(st, pretty, n);
    case Other(name) => r := Err(UnknownNode(name));
  }

  lemma NodesUnfold(bash: Bash, pretty: Spec.Pretty, items: seq<Node>, i: nat, s: Mirror)
    requires (forall j :: 0 <= j < |items| ==> RawNode(items[j])) && i < |items|
    ensures var first := Spec.CompileNode(bash, pretty, items[i], s);
      Spec.CompileNodes(bash, pretty, items[i..], s) ==
        if first.result.Ok? then Prepend([first.result.value], Spec.CompileNodes(bash, pretty, items[i + 1..], first.after))
        else Run(Err(first.result.error), first.after)
  {
    assert items[i..][0] == items[i] && items[i..][1..] == items[i + 1..];
  }

  /** `compile_node_pipe`: the items, in a loop. */
  method CompilePipeNode(st: BashExpansionState, pretty: Spec.Pretty, n: Node) returns (r: Result<Node>)
    requires n.Pipe? && RawNode(n)
    modifies st`varFile, st`varPos, st`sent, st`unread
    ensures Run(r, st.State()) == Spec.CompilePipeNode(st.bash, pretty, n, old(st.State()))
    decreases n, 0
  {
    var items: seq<Node> := [];
    ghost var m0 := st.State();
    assert n.items[0..] == n.items;
    PrependEnds(items, Spec.CompileNodes(st.bash, pretty, n.items, st.State()), st.State());
    var i := 0;
    while i < |n.items|
      invariant i <= |n.items|
      invariant Spec.CompileNodes(st.bash, pretty, n.items, m0) ==
                Prepend(items, Spec.CompileNodes(st.bash, pretty, n.items[i..], st.State()))
    {
      NodesUnfold(st.bash, pretty, n.items, i, st.State());
      var item :- CompileNode(st, pretty, n.items[i]);
      PrependSnoc(items, item, Spec.CompileNodes(st.bash, pretty, n.items[i + 1..], st.State()));
      items := items + [item];
      i := i + 1;
    }
    assert n.items[i..] == [];
    PrependEnds(items, Spec.CompileNodes(st.bash, pretty, n.items[i..], st.State()), st.State());
    r := Ok(Pipe(items));
  }

  /** `compile_node_command`: assignments, arguments, then redirections. */
  method CompileCommandNode(st: BashExpansionState, pretty: Spec.Pretty, n: Node) returns (r: Result<Node>)
    requires n.Command? && RawNode(n)
    modifies st`varFile, st`varPos, st`sent, st`unread
    ensures Run(r, st.State()) == Spec.CompileCommandNode(st.bash, pretty, n, old(st.State()))
    decreases n, 0
  {
    var assignments :- CompileCommandAssignments(st, pretty, n.assignments);
    var arguments :- CompileCommandArguments(st, n.arguments);
    var redirList :- CompileRedirections(st, n.redirList);
    r := Ok(Command(assignments, arguments, redirList));
  }

  /** `compile_node_subshell`. */
  method CompileSubshellNode(st: BashExpansionState, pretty: Spec.Pretty, n: Node) returns (r: Result<Node>)
    requires n.Subshell? && RawNode(n)
    modifies st`varFile, st`varPos, st`sent, st`unread
    ensures Run(r, st.State()) == Spec.CompileSubshellNode(st.bash, pretty, n, old(st.State()))
    decreases n, 0
  {
    var body :- CompileNode(st, pretty, n.body);
    r := Ok(Subshell(body));
  }

  /** `compile_node_not`. */
  method CompileNotNode(st: BashExpansionState, pretty: Spec.Pretty, n: Node) returns (r: Result<Node>)
    requires n.Not? && RawNode(n)
    modifies st`varFile, st`varPos, st`sent, st`unread
    ensures Run(r, st.State()) == Spec.CompileNotNode(st.bash, pretty, n, old(st.State()))
    decreases n, 0
  {
    var body :- CompileNode(st, pretty, n.body);
    r := Ok(Not(body));
  }

  /** `compile_node_time`. */
  method CompileTimeNode(st: BashExpansionState, pretty: Spec.Pretty, n: Node) returns (r: Result<Node>)
    requires n.Time? && RawNode(n)
    modifies st`varFile, st`varPos, st`sent, st`unread
    ensures Run(r, st.State()) == Spec.CompileTimeNode(st.bash, pretty, n, old(st.State()))
    decreases n, 0
  {
    var command :- CompileNode(st, pretty, n.command);
    r := Ok(Time(command));
  }

  /** `compile_node_and`: left operand, then right operand. */
  method CompileAndNode(st: BashExpansionState, pretty: Spec.Pretty, n: Node) returns (r: Result<Node>)
    requires n.And? && RawNode(n)
    modifies st`varFile, st`varPos, st`sent, st`unread
    ensures Run(r, st.State()) == Spec.CompileAndNode(st.bash, pretty, n, old(st.State()))
    decreases n, 0
  {
    var left :- CompileNode(st, pretty, n.leftOperand);
    var right :- CompileNode(st, pretty, n.rightOperand);
    r := Ok(And(left, right));
  }

  /** `compile_node_or`: left operand, then right operand. */
  method CompileOrNode(st: BashExpansionState, pretty: Spec.Pretty, n: Node) returns (r: Result<Node>)
    requires n.Or? && RawNode(n)
    modifies st`varFile, st`varPos, st`sent, st`unread
    ensures Run(r, st.State()) == Spec.CompileOrNode(st.bash, pretty, n, old(st.State()))
    decreases n, 0
  {
    var left :- CompileNode(st, pretty, n.leftOperand);
    var right :- CompileNode(st, pretty, n.rightOperand);
    r := Ok(Or(left, right));
  }

  /** `compile_node_semi`: left operand, then right operand. */
  method CompileSemiNode(st: BashExpansionState, pretty: Spec.Pretty, n: Node) returns (r: Result<Node>)
    requires n.Semi? && RawNode(n)
    modifies st`varFile, st`varPos, st`sent, st`unread
    ensures Run(r, st.State()) == Spec.CompileSemiNode(st.bash, pretty, n, old(st.State()))
    decreases n, 0
  {
    var left :- CompileNode(st, pretty, n.leftOperand);
    var right :- CompileNode(st, pretty, n.rightOperand);
    r := Ok(Semi(left, right));
  }

  /** `compile_node_redir`: the node, then the redirections. */
  method CompileRedirNode(st: BashExpansionState, pretty: Spec.Pretty, n: Node) returns (r: Result<Node>)
    requires n.Redir? && RawNode(n)
    modifies st`varFile, st`varPos, st`sent, st`unread
    ensures Run(r, st.State()) == Spec.CompileRedirNode(st.bash, pretty, n, old(st.State()))
    decreases n, 0
  {
    var node :- CompileNode(st, pretty, n.node);
    var redirList :- CompileRedirections(st, n.redirList);
    r := Ok(Redir(node, redirList));
  }

  /** `compile_node_background`: the node, then the redirections. */
  method CompileBackgroundNode(st: BashExpansionState, pretty: Spec.Pretty, n: Node) returns (r: Result<Node>)
    requires n.Background? && RawNode(n)
    modifies st`varFile, st`varPos, st`sent, st`unread
    ensures Run(r, st.State()) == Spec.CompileBackgroundNode(st.bash, pretty, n, old(st.State()))
    decreases n, 0
  {
    var node :- CompileNode(st, pretty, n.node);
    var redirList :- CompileRedirections(st, n.redirList);
    r := Ok(Background(node, redirList));
  }

  /** `compile_node_group`: the body, then the redirections. */
  method CompileGroupNode(st: BashExpansionState, pretty: Spec.Pretty, n: Node) returns (r: Result<Node>)
    requires n.Group? && RawNode(n)
    modifies st`varFile, st`varPos, st`sent, st`unread
    ensures Run(r, st.State()) == Spec.CompileGroupNode(st.bash, pretty, n, old(st.State()))
    decreases n, 0
  {
    var body :- CompileNode(st, pretty, n.body);
    var redirections :- CompileRedirections(st, n.redirections);
    r := Ok(Group(body, redirections));
  }

  /** `compile_node_defun`: the name, then the body. */
  method CompileDefunNode(st: BashExpansionState, pretty: Spec.Pretty, n: Node) returns (r: Result<Node>)
    requires n.Defun? && RawNode(n)
    modifies st`varFile, st`varPos, st`sent, st`unread
    ensures Run(r, st.State()) == Spec.CompileDefunNode(st.bash, pretty, n, old(st.State()))
    decreases n, 0
  {
    var name :- CompileCommandArgument(st, n.name.word);
    var body :- CompileNode(st, pretty, n.body);
    r := Ok(Defun(name, body));
  }

  /** `compile_node_while`: the test, then the body. */
  method CompileWhileNode(st: BashExpansionState, pretty: Spec.Pretty, n: Node) returns (r: Result<Node>)
    requires n.While? && RawNode(n)
    modifies st`varFile, st`varPos, st`sent, st`unread
    ensures Run(r, st.State()) == Spec.CompileWhileNode(st.bash, pretty, n, old(st.State()))
    decreases n, 0
  {
    var test :- CompileCommandArgument(st, n.test.word);
    var body :- CompileNode(st, pretty, n.body);
    r := Ok(While(test, body));
  }

  /** `compile_node_coproc`: the name, then the body. */
  method CompileCoprocNode(st: BashExpansionState, pretty: Spec.Pretty, n: Node) returns (r: Result<Node>)
    requires n.Coproc? && RawNode(n)
    modifies st`varFile, st`varPos, st`sent, st`unread
    ensures Run(r, st.State()) == Spec.CompileCoprocNode(st.bash, pretty, n, old(st.State()))
    decreases n, 0
  {
    var name :- CompileCommandArgument(st, n.name.word);
    var body :- CompileNode(st, pretty, n.body);
    r := Ok(Coproc(name, body));
  }

  /** `compile_node_for`: the variable and the word list; the body is left alone. */
  method CompileForNode(st: BashExpansionState, pretty: Spec.Pretty, n: Node) returns (r: Result<Node>)
    requires n.For? && RawNode(n)
    modifies st`varFile, st`varPos, st`sent, st`unread
    ensures Run(r, st.State()) == Spec.CompileForNode(st.bash, n, old(st.State()))
    decreases n, 0
  {
    var variable :- CompileCommandArgument(st, n.variable.word);
    var argument :- CompileCommandArguments(st, n.argument);
    r := Ok(For(variable, argument, n.body));
  }

  /** `compile_node_if`: the condition, the then branch, and the else branch if any. */
  method CompileIfNode(st: BashExpansionState, pretty: Spec.Pretty, n: Node) returns (r: Result<Node>)
    requires n.If? && RawNode(n)
    modifies st`varFile, st`varPos, st`sent, st`unread
    ensures Run(r, st.State()) == Spec.CompileIfNode(st.bash, pretty, n, old(st.State()))
    decreases n, 0
  {
    var cond :- CompileCommandArgument(st, n.cond.word);
    var thenB :- CompileNode(st, pretty, n.thenB);
    if n.elseB.Some? {
      var elseB :- CompileNode(st, pretty, n.elseB.value);
      return Ok(If(cond, thenB, Some(elseB)));
    }
    r := Ok(If(cond, thenB, None));
  }

  /** `compile_node_case`: the subject, then the arms. */
  method CompileCaseNode(st: BashExpansionState, pretty: Spec.Pretty, n: Node) returns (r: Result<Node>)
    requires n.Case? && RawNode(n)
    modifies st`varFile, st`varPos, st`sent, st`unread
    ensures Run(r, st.State()) == Spec.CompileCaseNode(st.bash, pretty, n, old(st.State()))
    decreases n, 0
  {
    var subject :- CompileCommandArgument(st, n.subject.word);
    var cases :- CompileCommandCases(st, pretty, n.cases);
    r := Ok(Case(subject, cases));
  }

  /** `compile_node_select`: the variable, the body, then the word list. */
  method CompileSelectNode(st: BashExpansionState, pretty: Spec.Pretty, n: Node) returns (r: Result<Node>)
    requires n.Select? && RawNode(n)
    modifies st`varFile, st`varPos, st`sent, st`unread
    ensures Run(r, st.State()) == Spec.CompileSelectNode(st.bash, pretty, n, old(st.State()))
    decreases n, 0
  {
    var variable :- CompileCommandArgument(st, n.variable.word);
    var body :- CompileNode(st, pretty, n.body);
    var mapList :- CompileCommandArguments(st, n.mapList);
    r := Ok(Select(variable, body, mapList));
  }

  /** `compile_node_arith`: the terms. */
  method CompileArithNode(st: BashExpansionState, pretty: Spec.Pretty, n: Node) returns (r: Result<Node>)
    requires n.Arith? && RawNode(n)
    modifies st`varFile, st`varPos, st`sent, st`unread
    ensures Run(r, st.State()) == Spec.CompileArithNode(st.bash, n, old(st.State()))
    decreases n, 0
  {
    var terms :- CompileCommandArguments(st, n.terms);
    r := Ok(Arith(terms));
  }

  /** `compile_node_cond`: operator, left and right, each only when present and non-empty. */
  method CompileCondNode(st: BashExpansionState, pretty: Spec.Pretty, n: Node) returns (r: Result<Node>)
    requires n.Cond? && RawNode(n)
    modifies st`varFile, st`varPos, st`sent, st`unread
    ensures Run(r, st.State()) == Spec.CompileCondNode(st.bash, n, old(st.State()))
    decreases n, 0
  {
    var op :- CompileOptArgument(st, n.op);
    var left :- CompileOptArgument(st, n.left);
    var right :- CompileOptArgument(st, n.right);
    r := Ok(Cond(op, left, right));
  }

  /** `compile_node_arith_for`: init, condition and step, then the action. */
  method CompileArithForNode(st: BashExpansionState, pretty: Spec.Pretty, n: Node) returns (r: Result<Node>)
    requires n.ArithFor? && RawNode(n)
    modifies st`varFile, st`varPos, st`sent, st`unread
    ensures Run(r, st.State()) == Spec.CompileArithForNode(st.bash, pretty, n, old(st.State()))
    decreases n, 0
  {
    var init :- CompileCommandArguments(st, n.init);
    var condition :- CompileCommandArguments(st, n.condition);
    var step :- CompileCommandArguments(st, n.step);
    var action :- CompileNode(st, pretty, n.action);
    r := Ok(ArithFor(init, condition, step, action));
  }

  /** `compile_command_case`: the pattern, then the body. */
  method CompileCommandCase(st: BashExpansionState, pretty: Spec.Pretty, c: CaseItem) returns (r: Result<CaseItem>)
    requires RawField(c.pattern) && RawNode(c.body)
    modifies st`varFile, st`varPos, st`sent, st`unread
    ensures Run(r, st.State()) == Spec.CompileCase(st.bash, pretty, c, old(st.State()))
    decreases c
  {
    var pattern :- CompileCommandArgument(st, c.pattern.word);
    var body :- CompileNode(st, pretty, c.body);
    r := Ok(CaseItem(pattern, body));
  }

  lemma CasesUnfold(bash: Bash, pretty: Spec.Pretty, cases: seq<CaseItem>, i: nat, s: Mirror)
    requires (forall j :: 0 <= j < |cases| ==> RawField(cases[j].pattern) && RawNode(cases[j].body)) && i < |cases|
    ensures var first := Spec.CompileCase(bash, pretty, cases[i], s);
      Spec.CompileCases(bash, pretty, cases[i..], s) ==
        if first.result.Ok? then Prepend([first.result.value], Spec.CompileCases(bash, pretty, cases[i + 1..], first.after))
        else Run(Err(first.result.error), first.after)
  {
    assert cases[i..][0] == cases[i] && cases[i..][1..] == cases[i + 1..];
  }

  /** `compile_command_cases`: each arm in turn. */
  method CompileCommandCases(st: BashExpansionState, pretty: Spec.Pretty, cases: seq<CaseItem>)
    returns (r: Result<seq<CaseItem>>)
    requires forall j :: 0 <= j < |cases| ==> RawField(cases[j].pattern) && RawNode(cases[j].body)
    modifies st`varFile, st`varPos, st`sent, st`unread
    ensures Run(r, st.State()) == Spec.CompileCases(st.bash, pretty, cases, old(st.State()))
    decreases cases
  {
    ghost var m0 := st.State();
    var done: seq<CaseItem> := [];
    assert cases[0..] == cases;
    PrependEnds(done, Spec.CompileCases(st.bash, pretty, cases, st.State()), st.State());
    var i := 0;
    while i < |cases|
      invariant i <= |cases|
      invariant Spec.CompileCases(st.bash, pretty, cases, m0) ==
                Prepend(done, Spec.CompileCases(st.bash, pretty, cases[i..], st.State()))
    {
      CasesUnfold(st.bash, pretty, cases, i, st.State());
      var compiled :- CompileCommandCase(st, pretty, cases[i]);
      PrependSnoc(done, compiled, Spec.CompileCases(st.bash, pretty, cases[i + 1..], st.State()));
      done := done + [compiled];
      i := i + 1;
    }
    assert cases[i..] == [];
    PrependEnds(done, Spec.CompileCases(st.bash, pretty, cases[i..], st.State()), st.State());
    r := Ok(done);
  }

  /** `expand_command`: source the environment file when one is given, then
      compile the tree. */
  method ExpandCommand(st: BashExpansionState, pretty: Spec.Pretty, ast: Node, envVarsFile: Option<string>)
    returns (r: Result<Node>)
    requires RawNode(ast)
    modifies st`varFile, st`varPos, st`sent, st`unread
    ensures Run(r, st.State()) == Spec.ExpandCommand(st.bash, pretty, ast, envVarsFile, old(st.State()))
  {
    if envVarsFile.Some? {
      var _ :- st.SyncRunLineCommandMirror(SourceCommand(envVarsFile.value));
    }
    r := CompileNode(st, pretty, ast);
  }
}
