/**
 * What compiling a tree does to the session, over whole trees: the probe
 * lines it sends are those of the expandable words in the order the handlers
 * visit them, the variable file gains the printed assignments in the same
 * order, and a tree with nothing to expand comes back unchanged with nothing
 * sent and nothing read.
 */
module CompileProps {
  import opened Wrappers
  import opened Words
  import opened Protocol
  import opened Ast
  import opened Session
  import opened CompileSpec

  // ---------------------------------------------------------------------------
  // The words a compilation probes, in visiting order

  function FieldProbes(f: Field): seq<Word>
    requires RawField(f)
  {
    if ShouldExpand(f.word) then [f.word] else []
  }

  function WordsProbes(ws: seq<Word>): seq<Word>
    requires RawWords(ws)
    decreases |ws|
  {
    if ws == [] then [] else FieldProbes(Single(ws[0])) + WordsProbes(ws[1..])
  }

  function OptProbes(f: Option<Field>): seq<Word>
    requires RawOptField(f)
  {
    if f.Some? && |f.value.word| > 0 then FieldProbes(f.value) else []
  }

  function OperandProbes(o: Operand): seq<Word>
    requires RawOperand(o)
  {
    if o.Var? then FieldProbes(o.arg) else []
  }

  function RedirectionProbes(r: Redirection): seq<Word>
    requires RawRedirection(r)
  {
    match r
    case FileRedir(fd, arg) => OperandProbes(fd) + FieldProbes(arg)
    case DupRedir(fd, arg) => OperandProbes(fd) + OperandProbes(arg)
    case HeredocRedir(fd, arg) => OperandProbes(fd) + FieldProbes(arg)
    case SingleArgRedir(fd) => OperandProbes(fd)
    case OtherRedir(_) => []
  }

  function RedirectionsProbes(rs: seq<Redirection>): seq<Word>
    requires RawRedirections(rs)
    decreases |rs|
  {
    if rs == [] then [] else RedirectionProbes(rs[0]) + RedirectionsProbes(rs[1..])
  }

  function AssignsProbes(assigns: seq<Assign>): seq<Word>
    requires RawAssigns(assigns)
    decreases |assigns|
  {
    if assigns == [] then [] else FieldProbes(assigns[0].val) + AssignsProbes(assigns[1..])
  }

  function Probes(n: Node): seq<Word>
    requires RawNode(n)
    decreases n, 1
  {
    match n
    case Pipe(items) => NodesProbes(items)
    case Command(assigns, args, rs) => AssignsProbes(assigns) + WordsProbes(args) + RedirectionsProbes(rs)
    case Subshell(body) => Probes(body)
    case And(l, r) => Probes(l) + Probes(r)
    case Or(l, r) => Probes(l) + Probes(r)
    case Semi(l, r) => Probes(l) + Probes(r)
    case Not(body) => Probes(body)
    case Redir(node, rs) => Probes(node) + RedirectionsProbes(rs)
    case Background(node, rs) => Probes(node) + RedirectionsProbes(rs)
    case Defun(name, body) => FieldProbes(name) + Probes(body)
    case For(variable, args, _) => FieldProbes(variable) + WordsProbes(args)
    case While(test, body) => FieldProbes(test) + Probes(body)
    case If(cond, thenB, elseB) =>
      FieldProbes(cond) + Probes(thenB) + (if elseB.Some? then Probes(elseB.value) else [])
    case Case(subject, cases) => FieldProbes(subject) + CasesProbes(cases)
    case Select(variable, body, mapList) => FieldProbes(variable) + Probes(body) + WordsProbes(mapList)
    case Arith(terms) => WordsProbes(terms)
    case Cond(op, left, right) => OptProbes(op) + OptProbes(left) + OptProbes(right)
    case ArithFor(init, condition, step, action) =>
      WordsProbes(init) + WordsProbes(condition) + WordsProbes(step) + Probes(action)
    case Coproc(name, body) => FieldProbes(name) + Probes(body)
    case Time(command) => Probes(command)
    case Group(body, rs) => Probes(body) + RedirectionsProbes(rs)
    case Other(_) => []
  }

  function NodesProbes(items: seq<Node>): seq<Word>
    requires forall i :: 0 <= i < |items| ==> RawNode(items[i])
    decreases items
  {
    if items == [] then [] else Probes(items[0]) + NodesProbes(items[1..])
  }

  function CaseProbes(c: CaseItem): seq<Word>
    requires RawField(c.pattern) && RawNode(c.body)
    decreases c
  {
    FieldProbes(c.pattern) + Probes(c.body)
  }

  function CasesProbes(cases: seq<CaseItem>): seq<Word>
    requires forall i :: 0 <= i < |cases| ==> RawField(cases[i].pattern) && RawNode(cases[i].body)
    decreases cases
  {
    if cases == [] then [] else CaseProbes(cases[0]) + CasesProbes(cases[1..])
  }

  // ---------------------------------------------------------------------------
  // The assignments of a tree, in visiting order (the body of a `for` is never visited)

  function Assignments(n: Node): seq<Assign>
    decreases n, 1
  {
    match n
    case Pipe(items) => NodesAssignments(items)
    case Command(assigns, _, _) => assigns
    case Subshell(body) => Assignments(body)
    case And(l, r) => Assignments(l) + Assignments(r)
    case Or(l, r) => Assignments(l) + Assignments(r)
    case Semi(l, r) => Assignments(l) + Assignments(r)
    case Not(body) => Assignments(body)
    case Redir(node, _) => Assignments(node)
    case Background(node, _) => Assignments(node)
    case Defun(_, body) => Assignments(body)
    case For(_, _, _) => []
    case While(_, body) => Assignments(body)
    case If(_, thenB, elseB) => Assignments(thenB) + (if elseB.Some? then Assignments(elseB.value) else [])
    case Case(_, cases) => CasesAssignments(cases)
    case Select(_, body, _) => Assignments(body)
    case Arith(_) => []
    case Cond(_, _, _) => []
    case ArithFor(_, _, _, action) => Assignments(action)
    case Coproc(_, body) => Assignments(body)
    case Time(command) => Assignments(command)
    case Group(body, _) => Assignments(body)
    case Other(_) => []
  }

  function NodesAssignments(items: seq<Node>): seq<Assign>
    decreases items
  {
    if items == [] then [] else Assignments(items[0]) + NodesAssignments(items[1..])
  }

  function CaseAssignments(c: CaseItem): seq<Assign>
    decreases c
  {
    Assignments(c.body)
  }

  function CasesAssignments(cases: seq<CaseItem>): seq<Assign>
    decreases cases
  {
    if cases == [] then [] else CaseAssignments(cases[0]) + CasesAssignments(cases[1..])
  }

  /** What the variable file gains from a list of assignments: each printed, on its own line. */
  function Renders(pretty: Pretty, assigns: seq<Assign>): string
    decreases |assigns|
  {
    if assigns == [] then "" else pretty(assigns[0]) + "\n" + Renders(pretty, assigns[1..])
  }

  lemma {:induction false} RendersAppend(pretty: Pretty, a: seq<Assign>, b: seq<Assign>)
    ensures Renders(pretty, a + b) == Renders(pretty, a) + Renders(pretty, b)
    decreases |a|
  {
    if a == [] {
      assert a + b == b;
    } else {
      assert (a + b)[0] == a[0] && (a + b)[1..] == a[1..] + b;
      RendersAppend(pretty, a[1..], b);
    }
  }

  // ---------------------------------------------------------------------------
  // Trees the compiler can take apart: no foreign node or redirection, and
  // every `cond` operand absent or a non-empty word

  predicate PlainOpt(f: Option<Field>)
  {
    f.Some? ==> f.value.Single? && |f.value.word| > 0
  }

  predicate PlainRedirections(rs: seq<Redirection>)
  {
    forall i :: 0 <= i < |rs| ==> !rs[i].OtherRedir?
  }

  predicate Plain(n: Node)
    decreases n
  {
    match n
    case Pipe(items) => forall i :: 0 <= i < |items| ==> Plain(items[i])
    case Command(_, _, rs) => PlainRedirections(rs)
    case Subshell(body) => Plain(body)
    case And(l, r) => Plain(l) && Plain(r)
    case Or(l, r) => Plain(l) && Plain(r)
    case Semi(l, r) => Plain(l) && Plain(r)
    case Not(body) => Plain(body)
    case Redir(node, rs) => Plain(node) && PlainRedirections(rs)
    case Background(node, rs) => Plain(node) && PlainRedirections(rs)
    case Defun(_, body) => Plain(body)
    case For(_, _, _) => true
    case While(_, body) => Plain(body)
    case If(_, thenB, elseB) => Plain(thenB) && (elseB.Some? ==> Plain(elseB.value))
    case Case(_, cases) => forall i :: 0 <= i < |cases| ==> Plain(cases[i].body)
    case Select(_, body, _) => Plain(body)
    case Arith(_) => true
    case Cond(op, left, right) => PlainOpt(op) && PlainOpt(left) && PlainOpt(right)
    case ArithFor(_, _, _, action) => Plain(action)
    case Coproc(_, body) => Plain(body)
    case Time(command) => Plain(command)
    case Group(body, rs) => Plain(body) && PlainRedirections(rs)
    case Other(_) => false
  }

  // ---------------------------------------------------------------------------
  // Effects on the session

  /** Every word can be sent as text. */
  predicate AllText(ws: seq<Word>)
  {
    forall i :: 0 <= i < |ws| ==> IsRaw(ws[i]) && WordText(ws[i]).Ok?
  }

  /** The probe lines of the words, in order. */
  function ProbeLines(ws: seq<Word>): (lines: seq<string>)
    requires AllText(ws)
    ensures |lines| == |ws|
    ensures forall i :: 0 <= i < |ws| ==> lines[i] == ProbeCommand(WordText(ws[i]).value)
  {
    seq(|ws|, i requires 0 <= i < |ws| => ProbeCommand(WordText(ws[i]).value))
  }

  /** What survives any compilation, successful or not: whether the session
      is open, and that the variable file is written at its end. */
  predicate Kept(m: Mirror, m': Mirror)
  {
    m'.isOpen == m.isOpen && m'.varPos == |m'.varFile|
  }

  /** A successful compilation from `m` to `m'` appended `written` to the
      variable file and sent exactly the probe lines of `ws`; when there was
      nothing to probe, nothing was sent and nothing read. */
  predicate Effect(m: Mirror, m': Mirror, written: string, ws: seq<Word>)
  {
    Kept(m, m') && m'.varFile == m.varFile + written &&
    AllText(ws) && Lines(m'.sent) == Lines(m.sent) + ProbeLines(ws) &&
    (ws == [] ==> m'.sent == m.sent && m'.unread == m.unread)
  }

  lemma EffectNone(m: Mirror)
    requires m.varPos == |m.varFile|
    ensures Effect(m, m, "", [])
  {
    assert m.varFile + "" == m.varFile;
  }

  lemma ProbeLinesAppend(w1: seq<Word>, w2: seq<Word>)
    requires AllText(w1) && AllText(w2)
    ensures AllText(w1 + w2) && ProbeLines(w1 + w2) == ProbeLines(w1) + ProbeLines(w2)
  {
    forall i | 0 <= i < |w1 + w2|
      ensures IsRaw((w1 + w2)[i]) && WordText((w1 + w2)[i]).Ok?
    {
      if i < |w1| { assert (w1 + w2)[i] == w1[i]; } else { assert (w1 + w2)[i] == w2[i - |w1|]; }
    }
    var l, l1, l2 := ProbeLines(w1 + w2), ProbeLines(w1), ProbeLines(w2);
    forall i | 0 <= i < |l| ensures l[i] == (l1 + l2)[i] {
      if i < |w1| { assert (w1 + w2)[i] == w1[i]; } else { assert (w1 + w2)[i] == w2[i - |w1|]; }
    }
  }

  /** The lines two successive compilations send. */
  lemma SentCompose(m1: Mirror, m2: Mirror, m3: Mirror, t1: string, t2: string, w1: seq<Word>, w2: seq<Word>)
    requires Effect(m1, m2, t1, w1) && Effect(m2, m3, t2, w2)
    ensures AllText(w1 + w2) && Lines(m3.sent) == Lines(m1.sent) + ProbeLines(w1 + w2)
    ensures w1 + w2 == [] ==> m3.sent == m1.sent && m3.unread == m1.unread
  {
    ProbeLinesAppend(w1, w2);
    if w1 + w2 == [] {
      assert |w1| == 0 && |w2| == 0;
    }
  }

  lemma EffectCompose(m1: Mirror, m2: Mirror, m3: Mirror, t1: string, t2: string, w1: seq<Word>, w2: seq<Word>)
    requires Effect(m1, m2, t1, w1) && Effect(m2, m3, t2, w2)
    ensures Effect(m1, m3, t1 + t2, w1 + w2)
  {
    SentCompose(m1, m2, m3, t1, t2, w1, w2);
    assert m3.varFile == m1.varFile + (t1 + t2);
  }

  /** Summary of one compiled node: see `Kept` and `Effect`; and a plain tree
      with nothing to probe, whose assignments can be written, compiles to
      itself. */
  predicate NodeSummary(pretty: Pretty, n: Node, m: Mirror, r: Run<Node>)
    requires RawNode(n)
  {
    Kept(m, r.after) &&
    (r.result.Ok? ==> Effect(m, r.after, Renders(pretty, Assignments(r.result.value)), Probes(n))) &&
    (Probes(n) == [] && Plain(n) && (m.isOpen || Assignments(n) == []) ==> r.result == Ok(n))
  }

  // ---------------------------------------------------------------------------
  // Arguments, operands, redirections and assignments

  /** A word is kept and nothing happens, or its one probe line is sent. */
  lemma ArgumentEffect(bash: Bash, a: Word, m: Mirror)
    requires IsRaw(a) && m.varPos == |m.varFile|
    ensures var r := CompileArgument(bash, a, m);
      Kept(m, r.after) && (r.result.Ok? ==> Effect(m, r.after, "", FieldProbes(Single(a))))
  {
    var r := CompileArgument(bash, a, m);
    if !ShouldExpand(a) {
      EffectNone(m);
    } else if r.result.Ok? {
      var text := WordText(a).value;
      assert m.isOpen;
      assert r.after.sent == m.sent + [Sent(ProbeCommand(text), m.varFile)];
      LinesAppend(m.sent, [Sent(ProbeCommand(text), m.varFile)]);
      assert ProbeLines([a]) == [ProbeCommand(text)];
      assert r.after.varFile + "" == r.after.varFile;
    }
  }

  lemma {:induction false} EachEffect(bash: Bash, args: seq<Word>, m: Mirror)
    requires RawWords(args) && m.varPos == |m.varFile|
    ensures var r := CompileEach(bash, args, m);
      Kept(m, r.after) && (r.result.Ok? ==> Effect(m, r.after, "", WordsProbes(args))) &&
      (WordsProbes(args) == [] ==> r.result.Ok? && Flatten(r.result.value) == args)
    decreases |args|
  {
    if args == [] {
      EffectNone(m);
    } else {
      var first := CompileArgument(bash, args[0], m);
      ArgumentEffect(bash, args[0], m);
      if first.result.Ok? {
        EachEffect(bash, args[1..], first.after);
        var rest := CompileEach(bash, args[1..], first.after);
        if rest.result.Ok? {
          EffectCompose(m, first.after, rest.after, "", "", FieldProbes(Single(args[0])), WordsProbes(args[1..]));
          assert "" + "" == "";
          if WordsProbes(args) == [] {
            assert args == [args[0]] + args[1..];
            assert ([first.result.value] + rest.result.value)[1..] == rest.result.value;
          }
        }
      }
    }
  }

  /** `compile_command_arguments` sends the probes of the expandable words in
      order, and a list with none gives itself back with nothing sent. */
  lemma ArgumentsEffect(bash: Bash, args: seq<Word>, m: Mirror)
    requires RawWords(args) && m.varPos == |m.varFile|
    ensures var r := CompileArguments(bash, args, m);
      Kept(m, r.after) && (r.result.Ok? ==> Effect(m, r.after, "", WordsProbes(args))) &&
      (WordsProbes(args) == [] ==> r.result == Ok(args))
  {
    EachEffect(bash, args, m);
  }

  lemma OptEffect(bash: Bash, f: Option<Field>, m: Mirror)
    requires RawOptField(f) && m.varPos == |m.varFile|
    ensures var r := CompileOptArgument(bash, f, m);
      Kept(m, r.after) && (r.result.Ok? ==> Effect(m, r.after, "", OptProbes(f))) &&
      (OptProbes(f) == [] && PlainOpt(f) ==> r.result == Ok(f))
  {
    if f.Some? && |f.value.word| > 0 {
      ArgumentEffect(bash, f.value.word, m);
    } else {
      EffectNone(m);
    }
  }

  lemma OperandEffect(bash: Bash, o: Operand, m: Mirror)
    requires RawOperand(o) && m.varPos == |m.varFile|
    ensures var r := CompileOperand(bash, o, m);
      Kept(m, r.after) && (r.result.Ok? ==> Effect(m, r.after, "", OperandProbes(o))) &&
      (OperandProbes(o) == [] ==> r.result == Ok(o))
  {
    if o.Var? {
      ArgumentEffect(bash, o.arg.word, m);
    } else {
      EffectNone(m);
    }
  }

  lemma RedirectionEffect(bash: Bash, redir: Redirection, m: Mirror)
    requires RawRedirection(redir) && m.varPos == |m.varFile|
    ensures var r := CompileRedirection(bash, redir, m);
      Kept(m, r.after) && (r.result.Ok? ==> Effect(m, r.after, "", RedirectionProbes(redir))) &&
      (RedirectionProbes(redir) == [] && !redir.OtherRedir? ==> r.result == Ok(redir))
  {
    match redir
    case FileRedir(fd, arg) =>
      OperandEffect(bash, fd, m);
      var fd' := CompileOperand(bash, fd, m);
      if fd'.result.Ok? {
        ArgumentEffect(bash, arg.word, fd'.after);
        var arg' := CompileArgument(bash, arg.word, fd'.after);
        if arg'.result.Ok? {
          EffectCompose(m, fd'.after, arg'.after, "", "", OperandProbes(fd), FieldProbes(arg));
        }
      }
    case DupRedir(fd, arg) =>
      OperandEffect(bash, fd, m);
      var fd' := CompileOperand(bash, fd, m);
      if fd'.result.Ok? {
        OperandEffect(bash, arg, fd'.after);
        var arg' := CompileOperand(bash, arg, fd'.after);
        if arg'.result.Ok? {
          EffectCompose(m, fd'.after, arg'.after, "", "", OperandProbes(fd), OperandProbes(arg));
        }
      }
    case HeredocRedir(fd, arg) =>
      OperandEffect(bash, fd, m);
      var fd' := CompileOperand(bash, fd, m);
      if fd'.result.Ok? {
        ArgumentEffect(bash, arg.word, fd'.after);
        var arg' := CompileArgument(bash, arg.word, fd'.after);
        if arg'.result.Ok? {
          EffectCompose(m, fd'.after, arg'.after, "", "", OperandProbes(fd), FieldProbes(arg));
        }
      }
    case SingleArgRedir(fd) =>
      OperandEffect(bash, fd, m);
    case OtherRedir(_) =>
      EffectNone(m);
  }

  lemma {:induction false} RedirectionsEffect(bash: Bash, rs: seq<Redirection>, m: Mirror)
    requires RawRedirections(rs) && m.varPos == |m.varFile|
    ensures var r := CompileRedirections(bash, rs, m);
      Kept(m, r.after) && (r.result.Ok? ==> Effect(m, r.after, "", RedirectionsProbes(rs))) &&
      (RedirectionsProbes(rs) == [] && PlainRedirections(rs) ==> r.result == Ok(rs))
    decreases |rs|
  {
    if rs == [] {
      EffectNone(m);
    } else {
      RedirectionEffect(bash, rs[0], m);
      var first := CompileRedirection(bash, rs[0], m);
      if first.result.Ok? {
        assert RawRedirections(rs[1..]);
        RedirectionsEffect(bash, rs[1..], first.after);
        var rest := CompileRedirections(bash, rs[1..], first.after);
        if rest.result.Ok? {
          EffectCompose(m, first.after, rest.after, "", "", RedirectionProbes(rs[0]), RedirectionsProbes(rs[1..]));
          if RedirectionsProbes(rs) == [] && PlainRedirections(rs) {
            assert PlainRedirections(rs[1..]) by {
              forall i | 0 <= i < |rs[1..]| ensures !rs[1..][i].OtherRedir? { assert rs[1..][i] == rs[i + 1]; }
            }
            assert rs == [rs[0]] + rs[1..];
          }
        }
      }
    }
  }

  /** `compile_command_assignment`: the value's probes, then the printed
      assignment, with its compiled value, on a line of its own. */
  lemma AssignmentEffect(bash: Bash, pretty: Pretty, a: Assign, m: Mirror)
    requires RawField(a.val) && m.varPos == |m.varFile|
    ensures var r := CompileAssignment(bash, pretty, a, m);
      Kept(m, r.after) && (r.result.Ok? ==> Effect(m, r.after, pretty(r.result.value) + "\n", FieldProbes(a.val))) &&
      (FieldProbes(a.val) == [] && m.isOpen ==> r.result == Ok(a))
  {
    ArgumentEffect(bash, a.val.word, m);
    var v := CompileArgument(bash, a.val.word, m);
    if v.result.Ok? {
      var u := UpdateVarFileStep(v.after, pretty(a.(val := v.result.value)));
      if u.result.Ok? {
        assert v.after.isOpen;
        assert u.after.sent == v.after.sent && u.after.unread == v.after.unread;
      }
    }
  }

  lemma {:induction false} AssignmentsEffect(bash: Bash, pretty: Pretty, assigns: seq<Assign>, m: Mirror)
    requires RawAssigns(assigns) && m.varPos == |m.varFile|
    ensures var r := CompileAssignments(bash, pretty, assigns, m);
      Kept(m, r.after) && (r.result.Ok? ==> Effect(m, r.after, Renders(pretty, r.result.value), AssignsProbes(assigns))) &&
      (AssignsProbes(assigns) == [] && (m.isOpen || assigns == []) ==> r.result == Ok(assigns))
    decreases |assigns|
  {
    if assigns == [] {
      EffectNone(m);
    } else {
      AssignmentEffect(bash, pretty, assigns[0], m);
      var first := CompileAssignment(bash, pretty, assigns[0], m);
      if first.result.Ok? {
        assert RawAssigns(assigns[1..]);
        AssignmentsEffect(bash, pretty, assigns[1..], first.after);
        var rest := CompileAssignments(bash, pretty, assigns[1..], first.after);
        if rest.result.Ok? {
          var all := [first.result.value] + rest.result.value;
          assert all[0] == first.result.value && all[1..] == rest.result.value;
          EffectCompose(m, first.after, rest.after, pretty(first.result.value) + "\n", Renders(pretty, rest.result.value),
                        FieldProbes(assigns[0].val), AssignsProbes(assigns[1..]));
          if AssignsProbes(assigns) == [] && m.isOpen {
            assert assigns == [assigns[0]] + assigns[1..];
          }
        }
      }
    }
  }

  // ---------------------------------------------------------------------------
  // Nodes

  /** `compile_node`, over any tree: see `NodeSummary`. */
  lemma {:induction false} NodeEffect(bash: Bash, pretty: Pretty, n: Node, m: Mirror)
    requires RawNode(n) && m.varPos == |m.varFile|
    ensures NodeSummary(pretty, n, m, CompileNode(bash, pretty, n, m))
    decreases n, 3
  {
    if n.Pipe? || n.Command? || n.Subshell? || n.Not? || n.Time? || n.Redir? {
      SimpleNodeEffect(bash, pretty, n, m);
    } else if n.And? || n.Or? || n.Semi? || n.Background? || n.Defun? {
      ListNodeEffect(bash, pretty, n, m);
    } else {
      CompoundNodeEffect(bash, pretty, n, m);
    }
  }

  /** `NodeEffect` for pipelines, simple commands, redirections and the wrappers. */
  lemma {:induction false} SimpleNodeEffect(bash: Bash, pretty: Pretty, n: Node, m: Mirror)
    requires n.Pipe? || n.Command? || n.Subshell? || n.Not? || n.Time? || n.Redir?
    requires RawNode(n) && m.varPos == |m.varFile|
    ensures NodeSummary(pretty, n, m, CompileNode(bash, pretty, n, m))
    decreases n, 2
  {
    match n
    case Pipe(_) => PipeNodeEffect(bash, pretty, n, m);
    case Command(_, _, _) => CommandNodeEffect(bash, pretty, n, m);
    case Subshell(_) => NodeEffect(bash, pretty, n.body, m);
    case Not(_) => NodeEffect(bash, pretty, n.body, m);
    case Time(_) => NodeEffect(bash, pretty, n.command, m);
    case Redir(_, _) => RedirNodeEffect(bash, pretty, n, m);
  }

  /** `NodeEffect` for lists, background jobs and function definitions. */
  lemma {:induction false} ListNodeEffect(bash: Bash, pretty: Pretty, n: Node, m: Mirror)
    requires n.And? || n.Or? || n.Semi? || n.Background? || n.Defun?
    requires RawNode(n) && m.varPos == |m.varFile|
    ensures NodeSummary(pretty, n, m, CompileNode(bash, pretty, n, m))
    decreases n, 2
  {
    match n
    case And(_, _) => AndNodeEffect(bash, pretty, n, m);
    case Or(_, _) => OrNodeEffect(bash, pretty, n, m);
    case Semi(_, _) => SemiNodeEffect(bash, pretty, n, m);
    case Background(_, _) => BackgroundNodeEffect(bash, pretty, n, m);
    case Defun(_, _) => DefunNodeEffect(bash, pretty, n, m);
  }

  /** `NodeEffect` for the compound commands and the kinds outside the table. */
  lemma {:induction false} CompoundNodeEffect(bash: Bash, pretty: Pretty, n: Node, m: Mirror)
    requires !(n.Pipe? || n.Command? || n.Subshell? || n.And? || n.Or? || n.Semi? || n.Not? || n.Redir? || n.Background? || n.Defun? || n.Time?)
    requires RawNode(n) && m.varPos == |m.varFile|
    ensures NodeSummary(pretty, n, m, CompileNode(bash, pretty, n, m))
    decreases n, 2
  {
    match n
    case For(_, _, _) => ForNodeEffect(bash, pretty, n, m);
    case While(_, _) => WhileNodeEffect(bash, pretty, n, m);
    case If(_, _, _) => IfNodeEffect(bash, pretty, n, m);
    case Case(_, _) => CaseNodeEffect(bash, pretty, n, m);
    case Select(_, _, _) => SelectNodeEffect(bash, pretty, n, m);
    case Arith(_) => ArgumentsEffect(bash, n.terms, m);
    case Cond(_, _, _) => CondNodeEffect(bash, pretty, n, m);
    case ArithFor(_, _, _, _) => ArithForNodeEffect(bash, pretty, n, m);
    case Coproc(_, _) => CoprocNodeEffect(bash, pretty, n, m);
    case Group(_, _) => GroupNodeEffect(bash, pretty, n, m);
    case Other(_) => EffectNone(m);
  }

  /** `compile_node_and`, whatever its outcome, keeps the session's openness and file,
      and returns a quiet node unchanged. */
  lemma AndNodeKept(bash: Bash, pretty: Pretty, n: Node, m: Mirror)
    requires n.And? && RawNode(n) && m.varPos == |m.varFile|
    ensures Kept(m, CompileAndNode(bash, pretty, n, m).after)
    ensures Probes(n) == [] && Plain(n) && (m.isOpen || Assignments(n) == []) ==> CompileAndNode(bash, pretty, n, m).result == Ok(n)
    decreases n, 0
  {
    NodeEffect(bash, pretty, n.leftOperand, m);
    var x := CompileNode(bash, pretty, n.leftOperand, m);
    NodeEffect(bash, pretty, n.rightOperand, x.after);
  }

  /** `compile_node_and`: left operand, then right operand. */
  lemma AndNodeEffect(bash: Bash, pretty: Pretty, n: Node, m: Mirror)
    requires n.And? && RawNode(n) && m.varPos == |m.varFile|
    ensures NodeSummary(pretty, n, m, CompileAndNode(bash, pretty, n, m))
    decreases n, 1
  {
    AndNodeKept(bash, pretty, n, m);
    NodeEffect(bash, pretty, n.leftOperand, m);
    var x := CompileNode(bash, pretty, n.leftOperand, m);
    if x.result.Ok? {
      NodeEffect(bash, pretty, n.rightOperand, x.after);
      var y := CompileNode(bash, pretty, n.rightOperand, x.after);
      if y.result.Ok? {
        RendersAppend(pretty, Assignments(x.result.value), Assignments(y.result.value));
        EffectCompose(m, x.after, y.after, Renders(pretty, Assignments(x.result.value)),
                      Renders(pretty, Assignments(y.result.value)), Probes(n.leftOperand), Probes(n.rightOperand));
      }
    }
  }

  /** `compile_node_or`, whatever its outcome, keeps the session's openness and file,
      and returns a quiet node unchanged. */
  lemma OrNodeKept(bash: Bash, pretty: Pretty, n: Node, m: Mirror)
    requires n.Or? && RawNode(n) && m.varPos == |m.varFile|
    ensures Kept(m, CompileOrNode(bash, pretty, n, m).after)
    ensures Probes(n) == [] && Plain(n) && (m.isOpen || Assignments(n) == []) ==> CompileOrNode(bash, pretty, n, m).result == Ok(n)
    decreases n, 0
  {
    NodeEffect(bash, pretty, n.leftOperand, m);
    var x := CompileNode(bash, pretty, n.leftOperand, m);
    NodeEffect(bash, pretty, n.rightOperand, x.after);
  }

  /** `compile_node_or`: left operand, then right operand. */
  lemma OrNodeEffect(bash: Bash, pretty: Pretty, n: Node, m: Mirror)
    requires n.Or? && RawNode(n) && m.varPos == |m.varFile|
    ensures NodeSummary(pretty, n, m, CompileOrNode(bash, pretty, n, m))
    decreases n, 1
  {
    OrNodeKept(bash, pretty, n, m);
    NodeEffect(bash, pretty, n.leftOperand, m);
    var x := CompileNode(bash, pretty, n.leftOperand, m);
    if x.result.Ok? {
      NodeEffect(bash, pretty, n.rightOperand, x.after);
      var y := CompileNode(bash, pretty, n.rightOperand, x.after);
      if y.result.Ok? {
        RendersAppend(pretty, Assignments(x.result.value), Assignments(y.result.value));
        EffectCompose(m, x.after, y.after, Renders(pretty, Assignments(x.result.value)),
                      Renders(pretty, Assignments(y.result.value)), Probes(n.leftOperand), Probes(n.rightOperand));
      }
    }
  }

  /** `compile_node_semi`, whatever its outcome, keeps the session's openness and file,
      and returns a quiet node unchanged. */
  lemma SemiNodeKept(bash: Bash, pretty: Pretty, n: Node, m: Mirror)
    requires n.Semi? && RawNode(n) && m.varPos == |m.varFile|
    ensures Kept(m, CompileSemiNode(bash, pretty, n, m).after)
    ensures Probes(n) == [] && Plain(n) && (m.isOpen || Assignments(n) == []) ==> CompileSemiNode(bash, pretty, n, m).result == Ok(n)
    decreases n, 0
  {
    NodeEffect(bash, pretty, n.leftOperand, m);
    var x := CompileNode(bash, pretty, n.leftOperand, m);
    NodeEffect(bash, pretty, n.rightOperand, x.after);
  }

  /** `compile_node_semi`: left operand, then right operand. */
  lemma SemiNodeEffect(bash: Bash, pretty: Pretty, n: Node, m: Mirror)
    requires n.Semi? && RawNode(n) && m.varPos == |m.varFile|
    ensures NodeSummary(pretty, n, m, CompileSemiNode(bash, pretty, n, m))
    decreases n, 1
  {
    SemiNodeKept(bash, pretty, n, m);
    NodeEffect(bash, pretty, n.leftOperand, m);
    var x := CompileNode(bash, pretty, n.leftOperand, m);
    if x.result.Ok? {
      NodeEffect(bash, pretty, n.rightOperand, x.after);
      var y := CompileNode(bash, pretty, n.rightOperand, x.after);
      if y.result.Ok? {
        RendersAppend(pretty, Assignments(x.result.value), Assignments(y.result.value));
        EffectCompose(m, x.after, y.after, Renders(pretty, Assignments(x.result.value)),
                      Renders(pretty, Assignments(y.result.value)), Probes(n.leftOperand), Probes(n.rightOperand));
      }
    }
  }

  /** `compile_node_redir`, whatever its outcome, keeps the session's openness and file,
      and returns a quiet node unchanged. */
  lemma RedirNodeKept(bash: Bash, pretty: Pretty, n: Node, m: Mirror)
    requires n.Redir? && RawNode(n) && m.varPos == |m.varFile|
    ensures Kept(m, CompileRedirNode(bash, pretty, n, m).after)
    ensures Probes(n) == [] && Plain(n) && (m.isOpen || Assignments(n) == []) ==> CompileRedirNode(bash, pretty, n, m).result == Ok(n)
    decreases n, 0
  {
    NodeEffect(bash, pretty, n.node, m);
    var x := CompileNode(bash, pretty, n.node, m);
    RedirectionsEffect(bash, n.redirList, x.after);
  }

  /** `compile_node_redir`: the node, then its redirections. */
  lemma RedirNodeEffect(bash: Bash, pretty: Pretty, n: Node, m: Mirror)
    requires n.Redir? && RawNode(n) && m.varPos == |m.varFile|
    ensures NodeSummary(pretty, n, m, CompileRedirNode(bash, pretty, n, m))
    decreases n, 1
  {
    RedirNodeKept(bash, pretty, n, m);
    NodeEffect(bash, pretty, n.node, m);
    var x := CompileNode(bash, pretty, n.node, m);
    if x.result.Ok? {
      RedirectionsEffect(bash, n.redirList, x.after);
      var y := CompileRedirections(bash, n.redirList, x.after);
      if y.result.Ok? {
        var written := Renders(pretty, Assignments(x.result.value));
        EffectCompose(m, x.after, y.after, written, "", Probes(n.node), RedirectionsProbes(n.redirList));
        assert written + "" == written;
      }
    }
  }

  /** `compile_node_background`, whatever its outcome, keeps the session's openness and file,
      and returns a quiet node unchanged. */
  lemma BackgroundNodeKept(bash: Bash, pretty: Pretty, n: Node, m: Mirror)
    requires n.Background? && RawNode(n) && m.varPos == |m.varFile|
    ensures Kept(m, CompileBackgroundNode(bash, pretty, n, m).after)
    ensures Probes(n) == [] && Plain(n) && (m.isOpen || Assignments(n) == []) ==> CompileBackgroundNode(bash, pretty, n, m).result == Ok(n)
    decreases n, 0
  {
    NodeEffect(bash, pretty, n.node, m);
    var x := CompileNode(bash, pretty, n.node, m);
    RedirectionsEffect(bash, n.redirList, x.after);
  }

  /** `compile_node_background`: the node, then its redirections. */
  lemma BackgroundNodeEffect(bash: Bash, pretty: Pretty, n: Node, m: Mirror)
    requires n.Background? && RawNode(n) && m.varPos == |m.varFile|
    ensures NodeSummary(pretty, n, m, CompileBackgroundNode(bash, pretty, n, m))
    decreases n, 1
  {
    BackgroundNodeKept(bash, pretty, n, m);
    NodeEffect(bash, pretty, n.node, m);
    var x := CompileNode(bash, pretty, n.node, m);
    if x.result.Ok? {
      RedirectionsEffect(bash, n.redirList, x.after);
      var y := CompileRedirections(bash, n.redirList, x.after);
      if y.result.Ok? {
        var written := Renders(pretty, Assignments(x.result.value));
        EffectCompose(m, x.after, y.after, written, "", Probes(n.node), RedirectionsProbes(n.redirList));
        assert written + "" == written;
      }
    }
  }

  /** `compile_node_group`, whatever its outcome, keeps the session's openness and file,
      and returns a quiet node unchanged. */
  lemma GroupNodeKept(bash: Bash, pretty: Pretty, n: Node, m: Mirror)
    requires n.Group? && RawNode(n) && m.varPos == |m.varFile|
    ensures Kept(m, CompileGroupNode(bash, pretty, n, m).after)
    ensures Probes(n) == [] && Plain(n) && (m.isOpen || Assignments(n) == []) ==> CompileGroupNode(bash, pretty, n, m).result == Ok(n)
    decreases n, 0
  {
    NodeEffect(bash, pretty, n.body, m);
    var x := CompileNode(bash, pretty, n.body, m);
    RedirectionsEffect(bash, n.redirections, x.after);
  }

  /** `compile_node_group`: the body, then its redirections. */
  lemma GroupNodeEffect(bash: Bash, pretty: Pretty, n: Node, m: Mirror)
    requires n.Group? && RawNode(n) && m.varPos == |m.varFile|
    ensures NodeSummary(pretty, n, m, CompileGroupNode(bash, pretty, n, m))
    decreases n, 1
  {
    GroupNodeKept(bash, pretty, n, m);
    NodeEffect(bash, pretty, n.body, m);
    var x := CompileNode(bash, pretty, n.body, m);
    if x.result.Ok? {
      RedirectionsEffect(bash, n.redirections, x.after);
      var y := CompileRedirections(bash, n.redirections, x.after);
      if y.result.Ok? {
        var written := Renders(pretty, Assignments(x.result.value));
        EffectCompose(m, x.after, y.after, written, "", Probes(n.body), RedirectionsProbes(n.redirections));
        assert written + "" == written;
      }
    }
  }

  /** `compile_node_defun`, whatever its outcome, keeps the session's openness and file,
      and returns a quiet node unchanged. */
  lemma DefunNodeKept(bash: Bash, pretty: Pretty, n: Node, m: Mirror)
    requires n.Defun? && RawNode(n) && m.varPos == |m.varFile|
    ensures Kept(m, CompileDefunNode(bash, pretty, n, m).after)
    ensures Probes(n) == [] && Plain(n) && (m.isOpen || Assignments(n) == []) ==> CompileDefunNode(bash, pretty, n, m).result == Ok(n)
    decreases n, 0
  {
    ArgumentEffect(bash, n.name.word, m);
    var x := CompileArgument(bash, n.name.word, m);
    NodeEffect(bash, pretty, n.body, x.after);
  }

  /** `compile_node_defun`: the name, then the body. */
  lemma DefunNodeEffect(bash: Bash, pretty: Pretty, n: Node, m: Mirror)
    requires n.Defun? && RawNode(n) && m.varPos == |m.varFile|
    ensures NodeSummary(pretty, n, m, CompileDefunNode(bash, pretty, n, m))
    decreases n, 1
  {
    DefunNodeKept(bash, pretty, n, m);
    ArgumentEffect(bash, n.name.word, m);
    var x := CompileArgument(bash, n.name.word, m);
    if x.result.Ok? {
      NodeEffect(bash, pretty, n.body, x.after);
      var y := CompileNode(bash, pretty, n.body, x.after);
      if y.result.Ok? {
        var written := Renders(pretty, Assignments(y.result.value));
        EffectCompose(m, x.after, y.after, "", written, FieldProbes(n.name), Probes(n.body));
        assert "" + written == written;
      }
    }
  }

  /** `compile_node_while`, whatever its outcome, keeps the session's openness and file,
      and returns a quiet node unchanged. */
  lemma WhileNodeKept(bash: Bash, pretty: Pretty, n: Node, m: Mirror)
    requires n.While? && RawNode(n) && m.varPos == |m.varFile|
    ensures Kept(m, CompileWhileNode(bash, pretty, n, m).after)
    ensures Probes(n) == [] && Plain(n) && (m.isOpen || Assignments(n) == []) ==> CompileWhileNode(bash, pretty, n, m).result == Ok(n)
    decreases n, 0
  {
    ArgumentEffect(bash, n.test.word, m);
    var x := CompileArgument(bash, n.test.word, m);
    NodeEffect(bash, pretty, n.body, x.after);
  }

  /** `compile_node_while`: the test, then the body. */
  lemma WhileNodeEffect(bash: Bash, pretty: Pretty, n: Node, m: Mirror)
    requires n.While? && RawNode(n) && m.varPos == |m.varFile|
    ensures NodeSummary(pretty, n, m, CompileWhileNode(bash, pretty, n, m))
    decreases n, 1
  {
    WhileNodeKept(bash, pretty, n, m);
    ArgumentEffect(bash, n.test.word, m);
    var x := CompileArgument(bash, n.test.word, m);
    if x.result.Ok? {
      NodeEffect(bash, pretty, n.body, x.after);
      var y := CompileNode(bash, pretty, n.body, x.after);
      if y.result.Ok? {
        var written := Renders(pretty, Assignments(y.result.value));
        EffectCompose(m, x.after, y.after, "", written, FieldProbes(n.test), Probes(n.body));
        assert "" + written == written;
      }
    }
  }

  /** `compile_node_coproc`, whatever its outcome, keeps the session's openness and file,
      and returns a quiet node unchanged. */
  lemma CoprocNodeKept(bash: Bash, pretty: Pretty, n: Node, m: Mirror)
    requires n.Coproc? && RawNode(n) && m.varPos == |m.varFile|
    ensures Kept(m, CompileCoprocNode(bash, pretty, n, m).after)
    ensures Probes(n) == [] && Plain(n) && (m.isOpen || Assignments(n) == []) ==> CompileCoprocNode(bash, pretty, n, m).result == Ok(n)
    decreases n, 0
  {
    ArgumentEffect(bash, n.name.word, m);
    var x := CompileArgument(bash, n.name.word, m);
    NodeEffect(bash, pretty, n.body, x.after);
  }

  /** `compile_node_coproc`: the name, then the body. */
  lemma CoprocNodeEffect(bash: Bash, pretty: Pretty, n: Node, m: Mirror)
    requires n.Coproc? && RawNode(n) && m.varPos == |m.varFile|
    ensures NodeSummary(pretty, n, m, CompileCoprocNode(bash, pretty, n, m))
    decreases n, 1
  {
    CoprocNodeKept(bash, pretty, n, m);
    ArgumentEffect(bash, n.name.word, m);
    var x := CompileArgument(bash, n.name.word, m);
    if x.result.Ok? {
      NodeEffect(bash, pretty, n.body, x.after);
      var y := CompileNode(bash, pretty, n.body, x.after);
      if y.result.Ok? {
        var written := Renders(pretty, Assignments(y.result.value));
        EffectCompose(m, x.after, y.after, "", written, FieldProbes(n.name), Probes(n.body));
        assert "" + written == written;
      }
    }
  }

  /** `compile_node_pipe`: the items in order. */
  lemma PipeNodeEffect(bash: Bash, pretty: Pretty, n: Node, m: Mirror)
    requires n.Pipe? && RawNode(n) && m.varPos == |m.varFile|
    ensures NodeSummary(pretty, n, m, CompilePipeNode(bash, pretty, n, m))
    decreases n, 1
  {
    NodesEffect(bash, pretty, n.items, m);
  }

  /** `compile_node_command`, whatever its outcome, keeps the session's openness and file,
      and returns a quiet node unchanged. */
  lemma CommandNodeKept(bash: Bash, pretty: Pretty, n: Node, m: Mirror)
    requires n.Command? && RawNode(n) && m.varPos == |m.varFile|
    ensures Kept(m, CompileCommandNode(bash, pretty, n, m).after)
    ensures Probes(n) == [] && Plain(n) && (m.isOpen || Assignments(n) == []) ==> CompileCommandNode(bash, pretty, n, m).result == Ok(n)
    decreases n, 0
  {
    AssignmentsEffect(bash, pretty, n.assignments, m);
    var a := CompileAssignments(bash, pretty, n.assignments, m);
    ArgumentsEffect(bash, n.arguments, a.after);
    var g := CompileArguments(bash, n.arguments, a.after);
    RedirectionsEffect(bash, n.redirList, g.after);
  }

  /** `compile_node_command`: the assignments' probes and lines, then the
      arguments' probes, then the redirections' probes. */
  lemma CommandNodeEffect(bash: Bash, pretty: Pretty, n: Node, m: Mirror)
    requires n.Command? && RawNode(n) && m.varPos == |m.varFile|
    ensures NodeSummary(pretty, n, m, CompileCommandNode(bash, pretty, n, m))
    decreases n, 1
  {
    CommandNodeKept(bash, pretty, n, m);
    AssignmentsEffect(bash, pretty, n.assignments, m);
    var a := CompileAssignments(bash, pretty, n.assignments, m);
    if a.result.Ok? {
      ArgumentsEffect(bash, n.arguments, a.after);
      var g := CompileArguments(bash, n.arguments, a.after);
      if g.result.Ok? {
        RedirectionsEffect(bash, n.redirList, g.after);
        var r := CompileRedirections(bash, n.redirList, g.after);
        if r.result.Ok? {
          var written := Renders(pretty, a.result.value);
          EffectCompose(m, a.after, g.after, written, "", AssignsProbes(n.assignments), WordsProbes(n.arguments));
          assert written + "" == written;
          EffectCompose(m, g.after, r.after, written, "", AssignsProbes(n.assignments) + WordsProbes(n.arguments),
                        RedirectionsProbes(n.redirList));
        }
      }
    }
  }

  /** `compile_node_for`, whatever its outcome, keeps the session's openness and file,
      and returns a quiet node unchanged. */
  lemma ForNodeKept(bash: Bash, n: Node, m: Mirror)
    requires n.For? && RawNode(n) && m.varPos == |m.varFile|
    ensures Kept(m, CompileForNode(bash, n, m).after)
    ensures Probes(n) == [] && Plain(n) ==> CompileForNode(bash, n, m).result == Ok(n)
    decreases n, 0
  {
    ArgumentEffect(bash, n.variable.word, m);
    var x := CompileArgument(bash, n.variable.word, m);
    ArgumentsEffect(bash, n.argument, x.after);
  }

  /** `compile_node_for`: the variable, then the word list. */
  lemma ForNodeEffect(bash: Bash, pretty: Pretty, n: Node, m: Mirror)
    requires n.For? && RawNode(n) && m.varPos == |m.varFile|
    ensures NodeSummary(pretty, n, m, CompileForNode(bash, n, m))
    decreases n, 1
  {
    ForNodeKept(bash, n, m);
    ArgumentEffect(bash, n.variable.word, m);
    var x := CompileArgument(bash, n.variable.word, m);
    if x.result.Ok? {
      ArgumentsEffect(bash, n.argument, x.after);
      var y := CompileArguments(bash, n.argument, x.after);
      if y.result.Ok? {
        EffectCompose(m, x.after, y.after, "", "", FieldProbes(n.variable), WordsProbes(n.argument));
        assert "" + "" == "";
      }
    }
  }

  /** `compile_node_if`, whatever its outcome, keeps the session's openness and file,
      and returns a quiet node unchanged. */
  lemma IfNodeKept(bash: Bash, pretty: Pretty, n: Node, m: Mirror)
    requires n.If? && RawNode(n) && m.varPos == |m.varFile|
    ensures Kept(m, CompileIfNode(bash, pretty, n, m).after)
    ensures Probes(n) == [] && Plain(n) && (m.isOpen || Assignments(n) == []) ==> CompileIfNode(bash, pretty, n, m).result == Ok(n)
    decreases n, 0
  {
    ArgumentEffect(bash, n.cond.word, m);
    var x := CompileArgument(bash, n.cond.word, m);
    NodeEffect(bash, pretty, n.thenB, x.after);
    var y := CompileNode(bash, pretty, n.thenB, x.after);
    if n.elseB.Some? {
      NodeEffect(bash, pretty, n.elseB.value, y.after);
    }
  }

  /** `compile_node_if`: the condition, the then branch, then the else branch. */
  lemma IfNodeEffect(bash: Bash, pretty: Pretty, n: Node, m: Mirror)
    requires n.If? && RawNode(n) && m.varPos == |m.varFile|
    ensures NodeSummary(pretty, n, m, CompileIfNode(bash, pretty, n, m))
    decreases n, 1
  {
    IfNodeKept(bash, pretty, n, m);
    ArgumentEffect(bash, n.cond.word, m);
    var x := CompileArgument(bash, n.cond.word, m);
    if x.result.Ok? {
      NodeEffect(bash, pretty, n.thenB, x.after);
      var y := CompileNode(bash, pretty, n.thenB, x.after);
      if y.result.Ok? {
        var thenWritten := Renders(pretty, Assignments(y.result.value));
        EffectCompose(m, x.after, y.after, "", thenWritten, FieldProbes(n.cond), Probes(n.thenB));
        assert "" + thenWritten == thenWritten;
        if n.elseB.Some? {
          NodeEffect(bash, pretty, n.elseB.value, y.after);
          var z := CompileNode(bash, pretty, n.elseB.value, y.after);
          if z.result.Ok? {
            RendersAppend(pretty, Assignments(y.result.value), Assignments(z.result.value));
            EffectCompose(m, y.after, z.after, thenWritten, Renders(pretty, Assignments(z.result.value)),
                          FieldProbes(n.cond) + Probes(n.thenB), Probes(n.elseB.value));
          }
        } else {
          assert Assignments(y.result.value) + [] == Assignments(y.result.value);
          assert FieldProbes(n.cond) + Probes(n.thenB) + [] == FieldProbes(n.cond) + Probes(n.thenB);
        }
      }
    }
  }

  /** `compile_node_case`, whatever its outcome, keeps the session's openness and file,
      and returns a quiet node unchanged. */
  lemma CaseNodeKept(bash: Bash, pretty: Pretty, n: Node, m: Mirror)
    requires n.Case? && RawNode(n) && m.varPos == |m.varFile|
    ensures Kept(m, CompileCaseNode(bash, pretty, n, m).after)
    ensures Probes(n) == [] && Plain(n) && (m.isOpen || Assignments(n) == []) ==> CompileCaseNode(bash, pretty, n, m).result == Ok(n)
    decreases n, 0
  {
    ArgumentEffect(bash, n.subject.word, m);
    var x := CompileArgument(bash, n.subject.word, m);
    CasesEffect(bash, pretty, n.cases, x.after);
  }

  /** `compile_node_case`: the subject, then the arms. */
  lemma CaseNodeEffect(bash: Bash, pretty: Pretty, n: Node, m: Mirror)
    requires n.Case? && RawNode(n) && m.varPos == |m.varFile|
    ensures NodeSummary(pretty, n, m, CompileCaseNode(bash, pretty, n, m))
    decreases n, 1
  {
    CaseNodeKept(bash, pretty, n, m);
    ArgumentEffect(bash, n.subject.word, m);
    var x := CompileArgument(bash, n.subject.word, m);
    if x.result.Ok? {
      CasesEffect(bash, pretty, n.cases, x.after);
      var y := CompileCases(bash, pretty, n.cases, x.after);
      if y.result.Ok? {
        var written := Renders(pretty, CasesAssignments(y.result.value));
        EffectCompose(m, x.after, y.after, "", written, FieldProbes(n.subject), CasesProbes(n.cases));
        assert "" + written == written;
      }
    }
  }

  /** `compile_node_select`, whatever its outcome, keeps the session's openness and file,
      and returns a quiet node unchanged. */
  lemma SelectNodeKept(bash: Bash, pretty: Pretty, n: Node, m: Mirror)
    requires n.Select? && RawNode(n) && m.varPos == |m.varFile|
    ensures Kept(m, CompileSelectNode(bash, pretty, n, m).after)
    ensures Probes(n) == [] && Plain(n) && (m.isOpen || Assignments(n) == []) ==> CompileSelectNode(bash, pretty, n, m).result == Ok(n)
    decreases n, 0
  {
    ArgumentEffect(bash, n.variable.word, m);
    var x := CompileArgument(bash, n.variable.word, m);
    NodeEffect(bash, pretty, n.body, x.after);
    var y := CompileNode(bash, pretty, n.body, x.after);
    ArgumentsEffect(bash, n.mapList, y.after);
  }

  /** `compile_node_select`: the variable, the body, then the word list. */
  lemma SelectNodeEffect(bash: Bash, pretty: Pretty, n: Node, m: Mirror)
    requires n.Select? && RawNode(n) && m.varPos == |m.varFile|
    ensures NodeSummary(pretty, n, m, CompileSelectNode(bash, pretty, n, m))
    decreases n, 1
  {
    SelectNodeKept(bash, pretty, n, m);
    assert Probes(n) == FieldProbes(n.variable) + Probes(n.body) + WordsProbes(n.mapList);
    assert Plain(n) == Plain(n.body) && Assignments(n) == Assignments(n.body);
    ArgumentEffect(bash, n.variable.word, m);
    var x := CompileArgument(bash, n.variable.word, m);
    if x.result.Ok? {
      NodeEffect(bash, pretty, n.body, x.after);
      var y := CompileNode(bash, pretty, n.body, x.after);
      if y.result.Ok? {
        ArgumentsEffect(bash, n.mapList, y.after);
        var z := CompileArguments(bash, n.mapList, y.after);
        if z.result.Ok? {
          var written := Renders(pretty, Assignments(y.result.value));
          EffectCompose(m, x.after, y.after, "", written, FieldProbes(n.variable), Probes(n.body));
          assert "" + written == written && written + "" == written;
          EffectCompose(m, y.after, z.after, written, "", FieldProbes(n.variable) + Probes(n.body), WordsProbes(n.mapList));
        }
      }
    }
  }

  /** `compile_node_cond` keeps the session's openness and file, and returns
      a quiet node unchanged. */
  lemma CondNodeKept(bash: Bash, n: Node, m: Mirror)
    requires n.Cond? && RawNode(n) && m.varPos == |m.varFile|
    ensures Kept(m, CompileCondNode(bash, n, m).after)
    ensures Probes(n) == [] && Plain(n) ==> CompileCondNode(bash, n, m).result == Ok(n)
  {
    OptEffect(bash, n.op, m);
    var x := CompileOptArgument(bash, n.op, m);
    OptEffect(bash, n.left, x.after);
    var y := CompileOptArgument(bash, n.left, x.after);
    OptEffect(bash, n.right, y.after);
  }

  /** `compile_node_cond`, when it succeeds: the probes of operator, left
      and right, in that order, and no file content. */
  lemma CondNodeOk(bash: Bash, n: Node, m: Mirror)
    requires n.Cond? && RawNode(n) && m.varPos == |m.varFile|
    requires CompileCondNode(bash, n, m).result.Ok?
    ensures var r := CompileCondNode(bash, n, m);
      Effect(m, r.after, "", OptProbes(n.op) + OptProbes(n.left) + OptProbes(n.right))
  {
    OptEffect(bash, n.op, m);
    var x := CompileOptArgument(bash, n.op, m);
    OptEffect(bash, n.left, x.after);
    var y := CompileOptArgument(bash, n.left, x.after);
    OptEffect(bash, n.right, y.after);
    var z := CompileOptArgument(bash, n.right, y.after);
    EffectCompose(m, x.after, y.after, "", "", OptProbes(n.op), OptProbes(n.left));
    EffectCompose(m, y.after, z.after, "", "", OptProbes(n.op) + OptProbes(n.left), OptProbes(n.right));
    assert "" + "" == "";
  }

  /** `compile_node_cond`: operator, left, then right. */
  lemma CondNodeEffect(bash: Bash, pretty: Pretty, n: Node, m: Mirror)
    requires n.Cond? && RawNode(n) && m.varPos == |m.varFile|
    ensures NodeSummary(pretty, n, m, CompileCondNode(bash, n, m))
    decreases n, 1
  {
    CondNodeKept(bash, n, m);
    assert Probes(n) == OptProbes(n.op) + OptProbes(n.left) + OptProbes(n.right);
    assert Assignments(n) == [];
    if CompileCondNode(bash, n, m).result.Ok? {
      CondNodeOk(bash, n, m);
    }
  }

  /** Three word lists compiled one after another, as `compile_node_arith_for`
      does before its action. */
  lemma ArgumentListsEffect(bash: Bash, a: seq<Word>, b: seq<Word>, c: seq<Word>, m: Mirror)
    requires RawWords(a) && RawWords(b) && RawWords(c) && m.varPos == |m.varFile|
    ensures var x := CompileArguments(bash, a, m);
      var y := CompileArguments(bash, b, x.after);
      var z := CompileArguments(bash, c, y.after);
      Kept(m, x.after) &&
      (x.result.Ok? ==> Kept(m, y.after)) &&
      (x.result.Ok? && y.result.Ok? ==> Kept(m, z.after)) &&
      (x.result.Ok? && y.result.Ok? && z.result.Ok? ==>
         Effect(m, z.after, "", WordsProbes(a) + WordsProbes(b) + WordsProbes(c))) &&
      (WordsProbes(a) + WordsProbes(b) + WordsProbes(c) == [] ==>
         x.result == Ok(a) && y.result == Ok(b) && z.result == Ok(c))
  {
    ArgumentsEffect(bash, a, m);
    var x := CompileArguments(bash, a, m);
    ArgumentsEffect(bash, b, x.after);
    var y := CompileArguments(bash, b, x.after);
    ArgumentsEffect(bash, c, y.after);
    var z := CompileArguments(bash, c, y.after);
    if x.result.Ok? && y.result.Ok? && z.result.Ok? {
      EffectCompose(m, x.after, y.after, "", "", WordsProbes(a), WordsProbes(b));
      assert "" + "" == "";
      EffectCompose(m, y.after, z.after, "", "", WordsProbes(a) + WordsProbes(b), WordsProbes(c));
    }
  }

  /** `compile_node_arith_for`, whatever its outcome, keeps the session's openness and file,
      and returns a quiet node unchanged. */
  lemma ArithForNodeKept(bash: Bash, pretty: Pretty, n: Node, m: Mirror)
    requires n.ArithFor? && RawNode(n) && m.varPos == |m.varFile|
    ensures Kept(m, CompileArithForNode(bash, pretty, n, m).after)
    ensures Probes(n) == [] && Plain(n) && (m.isOpen || Assignments(n) == []) ==> CompileArithForNode(bash, pretty, n, m).result == Ok(n)
    decreases n, 0
  {
    ArgumentsEffect(bash, n.init, m);
    var x := CompileArguments(bash, n.init, m);
    ArgumentsEffect(bash, n.condition, x.after);
    var y := CompileArguments(bash, n.condition, x.after);
    ArgumentsEffect(bash, n.step, y.after);
    var z := CompileArguments(bash, n.step, y.after);
    NodeEffect(bash, pretty, n.action, z.after);
  }

  /** `compile_node_arith_for`: init, condition and step lists, then the action. */
  lemma ArithForNodeEffect(bash: Bash, pretty: Pretty, n: Node, m: Mirror)
    requires n.ArithFor? && RawNode(n) && m.varPos == |m.varFile|
    ensures NodeSummary(pretty, n, m, CompileArithForNode(bash, pretty, n, m))
    decreases n, 1
  {
    ArithForNodeKept(bash, pretty, n, m);
    var lists := WordsProbes(n.init) + WordsProbes(n.condition) + WordsProbes(n.step);
    assert Probes(n) == lists + Probes(n.action);
    assert Assignments(n) == Assignments(n.action);
    ArgumentListsEffect(bash, n.init, n.condition, n.step, m);
    var x := CompileArguments(bash, n.init, m);
    var y := CompileArguments(bash, n.condition, x.after);
    var z := CompileArguments(bash, n.step, y.after);
    if x.result.Ok? && y.result.Ok? && z.result.Ok? {
      ArithForActionEffect(bash, pretty, n, m, z.after, lists);
    }
  }

  /** The action of an arithmetic `for`, compiled after its three word lists. */
  lemma ArithForActionEffect(bash: Bash, pretty: Pretty, n: Node, m: Mirror, z: Mirror, lists: seq<Word>)
    requires n.ArithFor? && RawNode(n) && Effect(m, z, "", lists)
    ensures var w := CompileNode(bash, pretty, n.action, z);
      NodeSummary(pretty, n.action, z, w) &&
      (w.result.Ok? ==> Effect(m, w.after, Renders(pretty, Assignments(w.result.value)), lists + Probes(n.action)))
    decreases n, 0
  {
    NodeEffect(bash, pretty, n.action, z);
    var w := CompileNode(bash, pretty, n.action, z);
    if w.result.Ok? {
      var written := Renders(pretty, Assignments(w.result.value));
      assert "" + written == written;
      EffectCompose(m, z, w.after, "", written, lists, Probes(n.action));
    }
  }

  /** `compile_node` over a list, whatever its outcome, keeps the session's openness and file,
      and returns a quiet list unchanged. */
  lemma {:induction false} NodesKept(bash: Bash, pretty: Pretty, items: seq<Node>, m: Mirror)
    requires (forall i :: 0 <= i < |items| ==> RawNode(items[i])) && m.varPos == |m.varFile|
    ensures var r := CompileNodes(bash, pretty, items, m);
      Kept(m, r.after) && ((NodesProbes(items) == [] && (forall i :: 0 <= i < |items| ==> Plain(items[i])) &&
        (m.isOpen || NodesAssignments(items) == [])) ==> r.result == Ok(items))
    decreases items, 0
  {
    if items == [] {
      EffectNone(m);
    } else {
      var head, tail := items[0], items[1..];
      assert forall i :: 0 <= i < |tail| ==> tail[i] == items[i + 1];
      NodeEffect(bash, pretty, head, m);
      var first := CompileNode(bash, pretty, head, m);
      if first.result.Ok? {
        NodesKept(bash, pretty, tail, first.after);
        assert items == [head] + tail;
      }
    }
  }

  /** The items of a pipeline, each in turn. */
  lemma {:induction false} NodesEffect(bash: Bash, pretty: Pretty, items: seq<Node>, m: Mirror)
    requires (forall i :: 0 <= i < |items| ==> RawNode(items[i])) && m.varPos == |m.varFile|
    ensures var r := CompileNodes(bash, pretty, items, m);
      Kept(m, r.after) &&
      (r.result.Ok? ==> Effect(m, r.after, Renders(pretty, NodesAssignments(r.result.value)), NodesProbes(items))) &&
      ((NodesProbes(items) == [] && (forall i :: 0 <= i < |items| ==> Plain(items[i])) &&
        (m.isOpen || NodesAssignments(items) == [])) ==> r.result == Ok(items))
    decreases items, 1
  {
    NodesKept(bash, pretty, items, m);
    if items == [] {
      EffectNone(m);
    } else {
      var head, tail := items[0], items[1..];
      assert forall i :: 0 <= i < |tail| ==> tail[i] == items[i + 1];
      NodeEffect(bash, pretty, head, m);
      var first := CompileNode(bash, pretty, head, m);
      if first.result.Ok? {
        NodesEffect(bash, pretty, tail, first.after);
        var rest := CompileNodes(bash, pretty, tail, first.after);
        if rest.result.Ok? {
          var all := [first.result.value] + rest.result.value;
          assert CompileNodes(bash, pretty, items, m) == Run(Ok(all), rest.after);
          assert all[0] == first.result.value && all[1..] == rest.result.value;
          assert NodesAssignments(all) == Assignments(first.result.value) + NodesAssignments(rest.result.value);
          RendersAppend(pretty, Assignments(first.result.value), NodesAssignments(rest.result.value));
          EffectCompose(m, first.after, rest.after, Renders(pretty, Assignments(first.result.value)),
                        Renders(pretty, NodesAssignments(rest.result.value)), Probes(head), NodesProbes(tail));
        }
      }
    }
  }

  /** `compile_command_case`: the pattern, then the body. */
  lemma CaseEffect(bash: Bash, pretty: Pretty, c: CaseItem, m: Mirror)
    requires RawField(c.pattern) && RawNode(c.body) && m.varPos == |m.varFile|
    ensures var r := CompileCase(bash, pretty, c, m);
      Kept(m, r.after) &&
      (r.result.Ok? ==> Effect(m, r.after, Renders(pretty, CaseAssignments(r.result.value)), CaseProbes(c))) &&
      (CaseProbes(c) == [] && Plain(c.body) && (m.isOpen || CaseAssignments(c) == []) ==> r.result == Ok(c))
    decreases c
  {
    ArgumentEffect(bash, c.pattern.word, m);
    var x := CompileArgument(bash, c.pattern.word, m);
    if x.result.Ok? {
      NodeEffect(bash, pretty, c.body, x.after);
      var y := CompileNode(bash, pretty, c.body, x.after);
      if y.result.Ok? {
        var written := Renders(pretty, Assignments(y.result.value));
        EffectCompose(m, x.after, y.after, "", written, FieldProbes(c.pattern), Probes(c.body));
        assert "" + written == written;
      }
    }
  }

  /** The case arms, whatever its outcome, keeps the session's openness and file,
      and returns a quiet list unchanged. */
  lemma {:induction false} CasesKept(bash: Bash, pretty: Pretty, cases: seq<CaseItem>, m: Mirror)
    requires (forall i :: 0 <= i < |cases| ==> RawField(cases[i].pattern) && RawNode(cases[i].body))
    requires m.varPos == |m.varFile|
    ensures var r := CompileCases(bash, pretty, cases, m);
      Kept(m, r.after) && ((CasesProbes(cases) == [] && (forall i :: 0 <= i < |cases| ==> Plain(cases[i].body)) &&
        (m.isOpen || CasesAssignments(cases) == [])) ==> r.result == Ok(cases))
    decreases cases, 0
  {
    if cases == [] {
      EffectNone(m);
    } else {
      var head, tail := cases[0], cases[1..];
      assert forall i :: 0 <= i < |tail| ==> tail[i] == cases[i + 1];
      CaseEffect(bash, pretty, head, m);
      var first := CompileCase(bash, pretty, head, m);
      if first.result.Ok? {
        CasesKept(bash, pretty, tail, first.after);
        assert cases == [head] + tail;
      }
    }
  }

  /** `compile_command_cases`: each arm in turn. */
  lemma {:induction false} CasesEffect(bash: Bash, pretty: Pretty, cases: seq<CaseItem>, m: Mirror)
    requires (forall i :: 0 <= i < |cases| ==> RawField(cases[i].pattern) && RawNode(cases[i].body))
    requires m.varPos == |m.varFile|
    ensures var r := CompileCases(bash, pretty, cases, m);
      Kept(m, r.after) &&
      (r.result.Ok? ==> Effect(m, r.after, Renders(pretty, CasesAssignments(r.result.value)), CasesProbes(cases))) &&
      ((CasesProbes(cases) == [] && (forall i :: 0 <= i < |cases| ==> Plain(cases[i].body)) &&
        (m.isOpen || CasesAssignments(cases) == [])) ==> r.result == Ok(cases))
    decreases cases, 1
  {
    CasesKept(bash, pretty, cases, m);
    if cases == [] {
      EffectNone(m);
    } else {
      var head, tail := cases[0], cases[1..];
      assert forall i :: 0 <= i < |tail| ==> tail[i] == cases[i + 1];
      CaseEffect(bash, pretty, head, m);
      var first := CompileCase(bash, pretty, head, m);
      if first.result.Ok? {
        CasesEffect(bash, pretty, tail, first.after);
        var rest := CompileCases(bash, pretty, tail, first.after);
        if rest.result.Ok? {
          var all := [first.result.value] + rest.result.value;
          assert CompileCases(bash, pretty, cases, m) == Run(Ok(all), rest.after);
          assert all[0] == first.result.value && all[1..] == rest.result.value;
          assert CasesAssignments(all) == CaseAssignments(first.result.value) + CasesAssignments(rest.result.value);
          RendersAppend(pretty, CaseAssignments(first.result.value), CasesAssignments(rest.result.value));
          EffectCompose(m, first.after, rest.after, Renders(pretty, CaseAssignments(first.result.value)),
                        Renders(pretty, CasesAssignments(rest.result.value)), CaseProbes(head), CasesProbes(tail));
        }
      }
    }
  }

  // ---------------------------------------------------------------------------
  // Whole runs and argument lists

  /** `expand_command`: with an environment file, its `source` line comes
      first, then the probes of the tree; the tree's assignments are appended
      to the variable file. */
  lemma ExpandCommandEffect(bash: Bash, pretty: Pretty, ast: Node, envVarsFile: Option<string>, m: Mirror)
    requires RawNode(ast) && m.varPos == |m.varFile|
    ensures var r := ExpandCommand(bash, pretty, ast, envVarsFile, m);
      Kept(m, r.after) &&
      (r.result.Ok? ==>
         r.after.varFile == m.varFile + Renders(pretty, Assignments(r.result.value)) &&
         AllText(Probes(ast)) &&
         Lines(r.after.sent) ==
           Lines(m.sent) + (if envVarsFile.Some? then [SourceCommand(envVarsFile.value)] else []) + ProbeLines(Probes(ast)))
  {
    if envVarsFile.Some? {
      var out := RunLineStep(bash, m, SourceCommand(envVarsFile.value));
      if out.result.Ok? {
        LinesAppend(m.sent, [Sent(SourceCommand(envVarsFile.value), m.varFile)]);
        NodeEffect(bash, pretty, ast, out.after);
      }
    } else {
      NodeEffect(bash, pretty, ast, m);
    }
  }

  /** A tree with nothing to expand, no foreign node or redirection and no
      empty `cond` operand compiles to itself: nothing is sent, nothing read,
      and the variable file gains the tree's assignments in order. */
  lemma QuietTreeIdentity(bash: Bash, pretty: Pretty, n: Node, m: Mirror)
    requires RawNode(n) && m.varPos == |m.varFile|
    requires Probes(n) == [] && Plain(n) && (m.isOpen || Assignments(n) == [])
    ensures var written := Renders(pretty, Assignments(n));
      CompileNode(bash, pretty, n, m) ==
        Run(Ok(n), m.(varFile := m.varFile + written, varPos := |m.varFile| + |written|))
  {
    NodeEffect(bash, pretty, n, m);
  }

  /** Nothing in a word list is probed exactly when no word in it holds `$`,
      a backtick or `~`. */
  lemma {:induction false} WordsProbesEmpty(ws: seq<Word>)
    requires RawWords(ws)
    ensures WordsProbes(ws) == [] <==> forall i :: 0 <= i < |ws| ==> !ShouldExpand(ws[i])
    decreases |ws|
  {
    if ws != [] {
      assert forall i :: 0 <= i < |ws[1..]| ==> ws[1..][i] == ws[i + 1];
      WordsProbesEmpty(ws[1..]);
    }
  }

  /** A word list with no `$`, backtick or `~` compiles to itself, and nothing is sent. */
  lemma ArgumentsIdentity(bash: Bash, args: seq<Word>, m: Mirror)
    requires RawWords(args) && m.varPos == |m.varFile|
    requires forall i :: 0 <= i < |args| ==> !ShouldExpand(args[i])
    ensures CompileArguments(bash, args, m) == Run(Ok(args), m)
  {
    WordsProbesEmpty(args);
    ArgumentsEffect(bash, args, m);
    assert m.varFile + "" == m.varFile;
  }

  /** Each argument compiles on its own: argument `i` is kept exactly when it
      does not expand, and an expanded one is `Expanded`. */
  lemma {:induction false} EachShape(bash: Bash, args: seq<Word>, m: Mirror)
    requires RawWords(args)
    ensures var r := CompileEach(bash, args, m);
      r.result.Ok? ==>
        forall i :: 0 <= i < |args| ==>
          (!ShouldExpand(args[i]) ==> r.result.value[i] == Single(args[i])) &&
          (ShouldExpand(args[i]) ==> r.result.value[i].Expanded?)
    decreases |args|
  {
    if args != [] {
      var first := CompileArgument(bash, args[0], m);
      if first.result.Ok? {
        EachShape(bash, args[1..], first.after);
        var rest := CompileEach(bash, args[1..], first.after);
        if rest.result.Ok? {
          var all := [first.result.value] + rest.result.value;
          forall i | 1 <= i < |args|
            ensures all[i] == rest.result.value[i - 1] && args[i] == args[1..][i - 1]
          {
          }
        }
      }
    }
  }

  /** The arguments are compiled in order: argument `i` is compiled in the
      session state left by compiling the arguments before it. */
  lemma {:induction false} EachStep(bash: Bash, args: seq<Word>, m: Mirror, i: nat)
    requires RawWords(args) && i < |args|
    ensures var r := CompileEach(bash, args, m);
      r.result.Ok? ==>
        var before := CompileEach(bash, args[..i], m);
        before.result.Ok? && CompileArgument(bash, args[i], before.after).result == Ok(r.result.value[i])
    decreases i
  {
    var first := CompileArgument(bash, args[0], m);
    if first.result.Ok? && i > 0 {
      EachStep(bash, args[1..], first.after, i - 1);
      assert args[..i][0] == args[0] && args[..i][1..] == args[1..][..i - 1];
      assert args[1..][i - 1] == args[i];
    } else if i == 0 {
      assert args[..0] == [];
    }
  }

  /** How many words one compiled argument contributes, summed over a list. */
  function Widths(fs: seq<Field>): nat
  {
    if fs == [] then 0 else |Contribution(fs[0])| + Widths(fs[1..])
  }

  /** The flattened list is as long as the contributions together. */
  lemma {:induction false} FlattenLength(fs: seq<Field>)
    ensures |Flatten(fs)| == Widths(fs)
  {
    if fs != [] {
      FlattenLength(fs[1..]);
    }
  }
}
