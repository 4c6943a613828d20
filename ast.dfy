/**
 * The syntax tree the compiler walks: one constructor per node kind the
 * dispatcher knows, with the fields its handler reads and rewrites, plus one
 * constructor for every other kind of node and of redirection.
 */
module Ast {
  import opened Wrappers
  import opened Words

  /** A field that holds one word. After `compile_command_argument` has
      expanded it, the handler stores the returned list of words in the field
      in its place. */
  datatype Field = Single(word: Word) | Expanded(words: seq<Word>)

  /** A file-descriptor operand `(kind, value)`: a fixed number, or a `"var"`
      operand holding a word. */
  datatype Operand = Fixed(fd: int) | Var(arg: Field)

  /** The `redir_type` values the redirection dispatcher knows. */
  const RedirTypes: set<string> := {"File", "Dup", "Here", "SingleArg"}

  type ForeignRedirType = t: string | t !in RedirTypes witness ""

  datatype Redirection =
    | FileRedir(fd: Operand, arg: Field)
    | DupRedir(fd: Operand, dupArg: Operand)
    | HeredocRedir(fd: Operand, arg: Field)
    | SingleArgRedir(fd: Operand)
    /** A redirection with any other `redir_type`. */
    | OtherRedir(redirType: ForeignRedirType)

  /** The `redir_type` of a redirection. */
  function RedirType(r: Redirection): string
  {
    match r
    case FileRedir(_, _) => "File"
    case DupRedir(_, _) => "Dup"
    case HeredocRedir(_, _) => "Here"
    case SingleArgRedir(_) => "SingleArg"
    case OtherRedir(t) => t
  }

  /** A variable assignment in front of a command, `name=val`. */
  datatype Assign = Assign(name: string, val: Field)

  /** One arm of a `case` statement: its pattern and its body. */
  datatype CaseItem = CaseItem(pattern: Field, body: Node)

  /** The `NodeName` values the node dispatcher knows. */
  const NodeNames: set<string> :=
    {"Pipe", "Command", "Subshell", "And", "Or", "Semi", "Not", "Redir", "Background",
     "Defun", "For", "While", "If", "Case", "Select", "Arith", "Cond", "ArithFor",
     "Coproc", "Time", "Group"}

  type ForeignName = s: string | s !in NodeNames witness ""

  /** A node of the tree. Field names follow the source's node classes; where
      two classes use one name for fields of different types, one of them is
      renamed (noted at the constructor). */
  datatype Node =
    | Pipe(items: seq<Node>)
    | Command(assignments: seq<Assign>, arguments: seq<Word>, redirList: seq<Redirection>)
    | Subshell(body: Node)
    | And(leftOperand: Node, rightOperand: Node)
    | Or(leftOperand: Node, rightOperand: Node)
    | Semi(leftOperand: Node, rightOperand: Node)
    | Not(body: Node)
    | Redir(node: Node, redirList: seq<Redirection>)
    | Background(node: Node, redirList: seq<Redirection>)
    | Defun(name: Field, body: Node)
    | For(variable: Field, argument: seq<Word>, body: Node)
    | While(test: Field, body: Node)
    | If(cond: Field, thenB: Node, elseB: Option<Node>)
    /** `subject` is the `argument` field of the source's case node. */
    | Case(subject: Field, cases: seq<CaseItem>)
    | Select(variable: Field, body: Node, mapList: seq<Word>)
    /** `terms` is the `body` field of the source's arithmetic node. */
    | Arith(terms: seq<Word>)
    | Cond(op: Option<Field>, left: Option<Field>, right: Option<Field>)
    /** `condition` is the `cond` field of the source's arithmetic for node. */
    | ArithFor(init: seq<Word>, condition: seq<Word>, step: seq<Word>, action: Node)
    | Coproc(name: Field, body: Node)
    | Time(command: Node)
    | Group(body: Node, redirections: seq<Redirection>)
    /** A node of any other kind. */
    | Other(nodeName: ForeignName)

  /** The `NodeName` of a node, on which the source dispatches. */
  function NodeName(n: Node): string
  {
    match n
    case Pipe(_) => "Pipe"
    case Command(_, _, _) => "Command"
    case Subshell(_) => "Subshell"
    case And(_, _) => "And"
    case Or(_, _) => "Or"
    case Semi(_, _) => "Semi"
    case Not(_) => "Not"
    case Redir(_, _) => "Redir"
    case Background(_, _) => "Background"
    case Defun(_, _) => "Defun"
    case For(_, _, _) => "For"
    case While(_, _) => "While"
    case If(_, _, _) => "If"
    case Case(_, _) => "Case"
    case Select(_, _, _) => "Select"
    case Arith(_) => "Arith"
    case Cond(_, _, _) => "Cond"
    case ArithFor(_, _, _, _) => "ArithFor"
    case Coproc(_, _) => "Coproc"
    case Time(_) => "Time"
    case Group(_, _) => "Group"
    case Other(name) => name
  }

  /** Every kind but `Other` carries one of the known names, and each known
      name belongs to exactly one kind. */
  lemma NodeNameKnown(n: Node)
    ensures NodeName(n) in NodeNames <==> !n.Other?
  {
  }

  // ---------------------------------------------------------------------------
  // Trees as the parser produces them: every word a `list[CArgChar]`

  predicate RawField(f: Field)
  {
    f.Single? && IsRaw(f.word)
  }

  predicate RawWords(ws: seq<Word>)
  {
    forall i :: 0 <= i < |ws| ==> IsRaw(ws[i])
  }

  predicate RawOperand(o: Operand)
  {
    o.Var? ==> RawField(o.arg)
  }

  predicate RawRedirection(r: Redirection)
  {
    match r
    case FileRedir(fd, arg) => RawOperand(fd) && RawField(arg)
    case DupRedir(fd, arg) => RawOperand(fd) && RawOperand(arg)
    case HeredocRedir(fd, arg) => RawOperand(fd) && RawField(arg)
    case SingleArgRedir(fd) => RawOperand(fd)
    case OtherRedir(_) => true
  }

  predicate RawRedirections(rs: seq<Redirection>)
  {
    forall i :: 0 <= i < |rs| ==> RawRedirection(rs[i])
  }

  predicate RawAssigns(assigns: seq<Assign>)
  {
    forall i :: 0 <= i < |assigns| ==> RawField(assigns[i].val)
  }

  predicate RawOptField(f: Option<Field>)
  {
    f.Some? ==> RawField(f.value)
  }

  /** Every word the compiler will read is raw. The body of a `for` loop is
      never compiled, so nothing is asked of it. */
  predicate RawNode(n: Node)
    decreases n
  {
    match n
    case Pipe(items) => forall i :: 0 <= i < |items| ==> RawNode(items[i])
    case Command(assigns, args, rs) => RawAssigns(assigns) && RawWords(args) && RawRedirections(rs)
    case Subshell(body) => RawNode(body)
    case And(l, r) => RawNode(l) && RawNode(r)
    case Or(l, r) => RawNode(l) && RawNode(r)
    case Semi(l, r) => RawNode(l) && RawNode(r)
    case Not(body) => RawNode(body)
    case Redir(node, rs) => RawNode(node) && RawRedirections(rs)
    case Background(node, rs) => RawNode(node) && RawRedirections(rs)
    case Defun(name, body) => RawField(name) && RawNode(body)
    case For(variable, args, _) => RawField(variable) && RawWords(args)
    case While(test, body) => RawField(test) && RawNode(body)
    case If(cond, thenB, elseB) => RawField(cond) && RawNode(thenB) && (elseB.Some? ==> RawNode(elseB.value))
    case Case(subject, cases) =>
      RawField(subject) && forall i :: 0 <= i < |cases| ==> RawField(cases[i].pattern) && RawNode(cases[i].body)
    case Select(variable, body, mapList) => RawField(variable) && RawNode(body) && RawWords(mapList)
    case Arith(terms) => RawWords(terms)
    case Cond(op, left, right) => RawOptField(op) && RawOptField(left) && RawOptField(right)
    case ArithFor(init, condition, step, action) =>
      RawWords(init) && RawWords(condition) && RawWords(step) && RawNode(action)
    case Coproc(name, body) => RawField(name) && RawNode(body)
    case Time(command) => RawNode(command)
    case Group(body, rs) => RawNode(body) && RawRedirections(rs)
    case Other(_) => true
  }
}
