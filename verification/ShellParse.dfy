/**
  The pipeline parser of waf-tools/shellcmd.py: a state machine over tokens, and the grammar
  that says which token lists it accepts and what it makes of them.
*/
module ShellParse {
  import opened Prelude
  import opened ShellSyntax
  import opened Seqs

  datatype Result = Parsed(nodes: seq<Node>) | AssertionError

  // ------------------------------------------------------------- the machine, one token

  datatype Mode = BEGIN | COMMAND | CHDIR | STDERR_FILE | STDOUT_FILE | STDIN_FILE

  datatype Machine = Machine(mode: Mode, current: Option<Node>, pipeline: seq<Node>, envVars: map<string, string>)

  const START := Machine(BEGIN, None, [], map[])

  /** The machine after one more token, or None where the parser's assertion fails. */
  function Advance(m: Machine, token: string): Option<Machine> {
    match m.mode
    case BEGIN => AtBegin(m, token)
    case COMMAND =>
      if m.current.None? || !m.current.value.Command? then None else AfterName(m, m.current.value, token)
    case CHDIR =>
      if m.current.None? || !m.current.value.Chdir? then None
      else if MeaningOf(token).AndSign? then Some(Commit(m, m.current.value, And))
      else if m.current.value.dir.Some? then None
      else Some(m.(current := Some(Chdir(Some(token)))))
    case _ =>
      if m.current.None? || !m.current.value.Command? then None else FileName(m, m.current.value, token)
  }

  function AtBegin(m: Machine, token: string): Option<Machine> {
    var assignment := EnvMatch(token);
    if assignment.Some? then
      Some(m.(envVars := m.envVars[assignment.value.0 := assignment.value.1]))
    else if m.current.Some? then None
    else if token == "cd" then
      if m.envVars != map[] then None else Some(m.(current := Some(Chdir(None)), mode := CHDIR))
    else
      var env := if m.envVars == map[] then None else Some(m.envVars);
      Some(m.(current := Some(Command([token], None, Inherit, Inherit, env)), envVars := map[], mode := COMMAND))
  }

  function Commit(m: Machine, node: Node, op: Node): Machine {
    m.(pipeline := m.pipeline + [node, op], current := None, mode := BEGIN)
  }

  function AfterName(m: Machine, c: Node, token: string): Option<Machine>
    requires c.Command?
  {
    match MeaningOf(token)
    case ToStdout => Some(m.(mode := STDOUT_FILE))
    case ToStderr => Some(m.(mode := STDERR_FILE))
    case ErrToOut => if c.stderr != Inherit then None else Some(m.(current := Some(c.(stderr := STDOUT))))
    case FromStdin => Some(m.(mode := STDIN_FILE))
    case PipeSign => if c.stdout != Inherit then None else Some(Commit(m, c.(stdout := PIPE), Pipe))
    case AndSign => Some(Commit(m, c, And))
    case OrSign => Some(Commit(m, c, Or))
    case Plain => Some(m.(current := Some(c.(argv := c.argv + [token]))))
  }

  function FileName(m: Machine, c: Node, token: string): Option<Machine>
    requires c.Command?
  {
    match m.mode
    case STDOUT_FILE =>
      if c.stdout != Inherit then None else Some(m.(current := Some(c.(stdout := File(token))), mode := COMMAND))
    case STDERR_FILE =>
      if c.stderr != Inherit then None else Some(m.(current := Some(c.(stderr := File(token))), mode := COMMAND))
    case STDIN_FILE =>
      if c.stdin != None then None else Some(m.(current := Some(c.(stdin := Some(token))), mode := COMMAND))
    case _ => None
  }

  ghost function RunMachine(tokens: seq<string>): Option<Machine> {
    if tokens == [] then Some(START) else
      var m := RunMachine(tokens[..|tokens| - 1]);
      if m.None? then None else Advance(m.value, tokens[|tokens| - 1])
  }

  /** What the parser returns for a token list. */
  ghost function Parse(tokens: seq<string>): Result {
    var m := RunMachine(tokens);
    if m.None? || m.value.current.None? then AssertionError
    else Parsed(m.value.pipeline + [m.value.current.value])
  }

  // ---------------------------------------------------------------------------- grammar

  datatype Channel = Out | Err | In

  /** What may follow a command name, in any order. */
  datatype Item = Word(text: string) | Redirect(channel: Channel, file: string) | Merge

  datatype Operand = Cmd(env: seq<string>, name: string, items: seq<Item>) | Cd(dir: Option<string>)

  datatype Operator = PipeOp | AndOp | OrOp

  /** What follows the last operator: assignments only, a whole operand, or a redirection without its file. */
  datatype Tail = Assignments(env: seq<string>) | Whole(operand: Operand) | Dangling(operand: Operand, channel: Channel)

  datatype Phrase = Phrase(done: seq<(Operand, Operator)>, last: Tail)

  function ChannelSign(c: Channel): Meaning {
    match c case Out => ToStdout case Err => ToStderr case In => FromStdin
  }

  function OperatorSign(o: Operator): Meaning {
    match o case PipeOp => PipeSign case AndOp => AndSign case OrOp => OrSign
  }

  // The tokens of a phrase.

  function ItemTokens(i: Item): seq<string> {
    match i
    case Word(t) => [t]
    case Redirect(c, f) => [Spelling(ChannelSign(c)), f]
    case Merge => [Spelling(ErrToOut)]
  }

  function ItemsTokens(items: seq<Item>): seq<string> {
    if items == [] then [] else ItemsTokens(items[..|items| - 1]) + ItemTokens(items[|items| - 1])
  }

  function OperandTokens(o: Operand): seq<string> {
    match o
    case Cmd(env, name, items) => env + [name] + ItemsTokens(items)
    case Cd(dir) => if dir.Some? then ["cd", dir.value] else ["cd"]
  }

  function DoneTokens(done: seq<(Operand, Operator)>): seq<string> {
    if done == [] then [] else
      var (o, op) := done[|done| - 1];
      DoneTokens(done[..|done| - 1]) + OperandTokens(o) + [Spelling(OperatorSign(op))]
  }

  function TailTokens(t: Tail): seq<string> {
    match t
    case Assignments(env) => env
    case Whole(o) => OperandTokens(o)
    case Dangling(o, c) => OperandTokens(o) + [Spelling(ChannelSign(c))]
  }

  function Tokens(p: Phrase): seq<string> {
    DoneTokens(p.done) + TailTokens(p.last)
  }

  // The meaning of a phrase.

  function Words(items: seq<Item>): seq<string> {
    if items == [] then [] else
      var i := items[|items| - 1];
      Words(items[..|items| - 1]) + if i.Word? then [i.text] else []
  }

  /** The last file named for a channel. */
  function FileFor(items: seq<Item>, c: Channel): Option<string> {
    if items == [] then None else
      var i := items[|items| - 1];
      if i.Redirect? && i.channel == c then Some(i.file) else FileFor(items[..|items| - 1], c)
  }

  predicate HasMerge(items: seq<Item>) {
    Merge in items
  }

  function EnvMap(env: seq<string>): map<string, string> {
    if env == [] then map[] else
      var a := EnvMatch(env[|env| - 1]);
      var m := EnvMap(env[..|env| - 1]);
      if a.Some? then m[a.value.0 := a.value.1] else m
  }

  function EnvOf(env: seq<string>): Option<map<string, string>> {
    if EnvMap(env) == map[] then None else Some(EnvMap(env))
  }

  function SinkFor(f: Option<string>): Sink {
    if f.Some? then File(f.value) else Inherit
  }

  function NodeOf(o: Operand): (n: Node)
    ensures if o.Cmd? then n.Command? else n.Chdir?
  {
    match o
    case Cmd(env, name, items) =>
      Command([name] + Words(items), FileFor(items, In), SinkFor(FileFor(items, Out)),
              if HasMerge(items) then STDOUT else SinkFor(FileFor(items, Err)), EnvOf(env))
    case Cd(dir) => Chdir(dir)
  }

  function OpNode(op: Operator): Node {
    match op case PipeOp => Pipe case AndOp => And case OrOp => Or
  }

  /** An operand in front of an operator: a pipe takes its standard output. */
  function NodeBefore(o: Operand, op: Operator): Node {
    var n := NodeOf(o);
    if op.PipeOp? && n.Command? then n.(stdout := PIPE) else n
  }

  function DoneNodes(done: seq<(Operand, Operator)>): seq<Node> {
    if done == [] then [] else
      var (o, op) := done[|done| - 1];
      DoneNodes(done[..|done| - 1]) + [NodeBefore(o, op), OpNode(op)]
  }

  function Nodes(p: Phrase): seq<Node> {
    DoneNodes(p.done) + if p.last.Assignments? then [] else [NodeOf(p.last.operand)]
  }

  // Which phrases are allowed.

  predicate AllAssignments(env: seq<string>) {
    forall i :: 0 <= i < |env| ==> EnvMatch(env[i]).Some?
  }

  /** Words are not operators; each stream is redirected at most once. */
  predicate ItemsOk(items: seq<Item>) {
    items == [] ||
    var before, i := items[..|items| - 1], items[|items| - 1];
    && ItemsOk(before)
    && match i
       case Word(t) => MeaningOf(t).Plain?
       case Redirect(c, _) => FileFor(before, c).None? && (c.Err? ==> !HasMerge(before))
       case Merge => FileFor(before, Err).None? && !HasMerge(before)
  }

  predicate OperandOk(o: Operand) {
    match o
    case Cmd(env, name, items) => AllAssignments(env) && EnvMatch(name).None? && name != "cd" && ItemsOk(items)
    case Cd(dir) => dir.Some? ==> !MeaningOf(dir.value).AndSign?
  }

  /** Only "and" may follow a cd; only a command with a free standard output may be piped. */
  predicate DoneOk(e: (Operand, Operator)) {
    && OperandOk(e.0)
    && match e.0
       case Cmd(_, _, items) => e.1.PipeOp? ==> FileFor(items, Out).None?
       case Cd(_) => e.1.AndOp?
  }

  predicate PhraseOk(p: Phrase) {
    && (forall i :: 0 <= i < |p.done| ==> DoneOk(p.done[i]))
    && match p.last
       case Assignments(env) => AllAssignments(env)
       case Whole(o) => OperandOk(o)
       case Dangling(o, _) => o.Cmd? && OperandOk(o)
  }

  // ------------------------------------------------------ the machine follows the grammar

  function ModeFor(c: Channel): Mode {
    match c case Out => STDOUT_FILE case Err => STDERR_FILE case In => STDIN_FILE
  }

  /** The machine's state after the tokens of a phrase. */
  function StateOf(p: Phrase): Machine {
    match p.last
    case Assignments(env) => Machine(BEGIN, None, DoneNodes(p.done), EnvMap(env))
    case Whole(o) => Machine(if o.Cmd? then COMMAND else CHDIR, Some(NodeOf(o)), DoneNodes(p.done), map[])
    case Dangling(o, c) => Machine(ModeFor(c), Some(NodeOf(o)), DoneNodes(p.done), map[])
  }

  /** The phrase with one more token. */
  function Extend(p: Phrase, token: string): Option<Phrase>
    requires PhraseOk(p)
  {
    match p.last
    case Assignments(env) =>
      if EnvMatch(token).Some? then Some(p.(last := Assignments(env + [token])))
      else if token == "cd" then if env == [] then Some(p.(last := Whole(Cd(None)))) else None
      else Some(p.(last := Whole(Cmd(env, token, []))))
    case Whole(Cd(dir)) =>
      if MeaningOf(token).AndSign? then Some(Close(p, AndOp))
      else if dir.Some? then None
      else Some(p.(last := Whole(Cd(Some(token)))))
    case Whole(Cmd(env, name, items)) => ExtendCommand(p, token)
    case Dangling(o, c) =>
      if FileFor(o.items, c).Some? || (c.Err? && HasMerge(o.items)) then None
      else Some(p.(last := Whole(o.(items := o.items + [Redirect(c, token)]))))
  }

  function Close(p: Phrase, op: Operator): Phrase
    requires !p.last.Assignments?
  {
    Phrase(p.done + [(p.last.operand, op)], Assignments([]))
  }

  function ExtendCommand(p: Phrase, token: string): Option<Phrase>
    requires p.last.Whole? && p.last.operand.Cmd?
  {
    var o := p.last.operand;
    match MeaningOf(token)
    case ToStdout => Some(p.(last := Dangling(o, Out)))
    case ToStderr => Some(p.(last := Dangling(o, Err)))
    case FromStdin => Some(p.(last := Dangling(o, In)))
    case ErrToOut =>
      if FileFor(o.items, Err).Some? || HasMerge(o.items) then None
      else Some(p.(last := Whole(o.(items := o.items + [Merge]))))
    case PipeSign => if FileFor(o.items, Out).Some? then None else Some(Close(p, PipeOp))
    case AndSign => Some(Close(p, AndOp))
    case OrSign => Some(Close(p, OrOp))
    case Plain => Some(p.(last := Whole(o.(items := o.items + [Word(token)]))))
  }

  ghost predicate Grows(p: Phrase, token: string)
    requires PhraseOk(p)
  {
    var q := Extend(p, token);
    q.Some? ==> PhraseOk(q.value) && Tokens(q.value) == Tokens(p) + [token]
  }

  function StateAfter(q: Option<Phrase>): Option<Machine> {
    if q.None? then None else Some(StateOf(q.value))
  }

  lemma ItemsGrow(items: seq<Item>, i: Item)
    ensures (items + [i])[..|items|] == items
    ensures ItemsTokens(items + [i]) == ItemsTokens(items) + ItemTokens(i)
    ensures Words(items + [i]) == if i.Word? then Words(items) + [i.text] else Words(items)
    ensures HasMerge(items + [i]) <==> HasMerge(items) || i.Merge?
    ensures forall c :: FileFor(items + [i], c) == if i.Redirect? && i.channel == c then Some(i.file)
      else FileFor(items, c)
  {
    assert (items + [i])[..|items|] == items;
  }

  lemma DoneGrows(done: seq<(Operand, Operator)>, o: Operand, op: Operator)
    ensures DoneTokens(done + [(o, op)]) == DoneTokens(done) + OperandTokens(o) + [Spelling(OperatorSign(op))]
    ensures DoneNodes(done + [(o, op)]) == DoneNodes(done) + [NodeBefore(o, op), OpNode(op)]
  {
    assert (done + [(o, op)])[..|done|] == done;
  }

  lemma {:induction false} EnvMapEmpty(env: seq<string>)
    requires AllAssignments(env)
    ensures EnvMap(env) == map[] <==> env == []
  {
    if env != [] {
      var a := EnvMatch(env[|env| - 1]);
      assert a.value.0 in EnvMap(env);
    }
  }

  lemma EnvGrows(env: seq<string>, token: string)
    requires EnvMatch(token).Some?
    ensures EnvMap(env + [token]) == EnvMap(env)[EnvMatch(token).value.0 := EnvMatch(token).value.1]
  {
    assert (env + [token])[..|env|] == env;
  }

  // Extending a phrase adds the token at its end ...

  lemma GrowsAssignments(p: Phrase, token: string)
    requires PhraseOk(p) && p.last.Assignments?
    ensures Grows(p, token)
  {
    var env, d := p.last.env, DoneTokens(p.done);
    Assoc(d, env, [token]);
    if EnvMatch(token).None? && token != "cd" {
      assert OperandTokens(Cmd(env, token, [])) == env + [token];
    }
  }

  lemma GrowsClose(p: Phrase, op: Operator, token: string)
    requires PhraseOk(p) && p.last.Whole? && DoneOk((p.last.operand, op)) && token == Spelling(OperatorSign(op))
    ensures PhraseOk(Close(p, op)) && Tokens(Close(p, op)) == Tokens(p) + [token]
  {
    DoneGrows(p.done, p.last.operand, op);
    var q := Close(p, op);
    assert Tokens(q) == DoneTokens(q.done) + [] == DoneTokens(q.done);
  }

  lemma GrowsCd(p: Phrase, token: string)
    requires PhraseOk(p) && p.last.Whole? && p.last.operand.Cd?
    ensures Grows(p, token)
  {
    if MeaningOf(token).AndSign? {
      SpellingMeans(AndSign, token);
      GrowsClose(p, AndOp, token);
    } else if p.last.operand.dir.None? {
      assert DoneTokens(p.done) + ["cd"] + [token] == DoneTokens(p.done) + ["cd", token];
    }
  }

  /** Adding an item to a command adds its tokens at the end. */
  lemma GrowsItem(p: Phrase, o: Operand, i: Item)
    requires o.Cmd? && PhraseOk(p) && !p.last.Assignments? && p.last.operand == o
    requires ItemsOk(o.items + [i])
    ensures var q := p.(last := Whole(o.(items := o.items + [i])));
      PhraseOk(q) && Tokens(q) == DoneTokens(p.done) + OperandTokens(o) + ItemTokens(i)
  {
    OperandGrows(o, i);
    Assoc(DoneTokens(p.done), OperandTokens(o), ItemTokens(i));
  }

  lemma OperandGrows(o: Operand, i: Item)
    requires o.Cmd?
    ensures OperandTokens(o.(items := o.items + [i])) == OperandTokens(o) + ItemTokens(i)
  {
    ItemsGrow(o.items, i);
    Assoc(o.env + [o.name], ItemsTokens(o.items), ItemTokens(i));
  }

  lemma GrowsDangling(p: Phrase, token: string)
    requires PhraseOk(p) && p.last.Dangling?
    ensures Grows(p, token)
  {
    var o, c := p.last.operand, p.last.channel;
    var i, sign := Redirect(c, token), Spelling(ChannelSign(c));
    ItemsGrow(o.items, i);
    if Extend(p, token).Some? {
      GrowsItem(p, o, i);
      JoinTwice(DoneTokens(p.done), OperandTokens(o), sign, token);
    }
  }

  lemma JoinTwice(a: seq<string>, b: seq<string>, s: string, t: string)
    ensures a + b + [s, t] == a + (b + [s]) + [t]
  {
  }

  lemma GrowsOpen(p: Phrase, c: Channel)
    requires PhraseOk(p) && p.last.Whole? && p.last.operand.Cmd?
    ensures var q := p.(last := Dangling(p.last.operand, c));
      PhraseOk(q) && Tokens(q) == Tokens(p) + [Spelling(ChannelSign(c))]
  {
    Assoc(DoneTokens(p.done), OperandTokens(p.last.operand), [Spelling(ChannelSign(c))]);
  }

  lemma GrowsCommand(p: Phrase, token: string)
    requires PhraseOk(p) && p.last.Whole? && p.last.operand.Cmd?
    ensures Grows(p, token)
  {
    var o, m := p.last.operand, MeaningOf(token);
    if Extend(p, token).Some? {
      if m.Plain? {
        ItemsGrow(o.items, Word(token));
        GrowsItem(p, o, Word(token));
      } else {
        SpellingMeans(m, token);
        GrowsSign(p, m);
      }
    }
  }

  lemma GrowsSign(p: Phrase, m: Meaning)
    requires PhraseOk(p) && p.last.Whole? && p.last.operand.Cmd? && !m.Plain?
    requires MeaningOf(Spelling(m)) == m && Extend(p, Spelling(m)).Some?
    ensures Grows(p, Spelling(m))
  {
    match m
    case ErrToOut =>
      ItemsGrow(p.last.operand.items, Merge);
      GrowsItem(p, p.last.operand, Merge);
    case PipeSign => GrowsClose(p, PipeOp, Spelling(m));
    case AndSign => GrowsClose(p, AndOp, Spelling(m));
    case OrSign => GrowsClose(p, OrOp, Spelling(m));
    case ToStdout => GrowsOpen(p, Out);
    case ToStderr => GrowsOpen(p, Err);
    case FromStdin => GrowsOpen(p, In);
  }

  // ... and moves the machine in step.

  lemma MovesAssignments(p: Phrase, token: string)
    requires PhraseOk(p) && p.last.Assignments?
    ensures Advance(StateOf(p), token) == StateAfter(Extend(p, token))
  {
    EnvMapEmpty(p.last.env);
    if EnvMatch(token).Some? {
      EnvGrows(p.last.env, token);
    }
    assert [token] + Words([]) == [token];
  }

  lemma MovesCd(p: Phrase, token: string)
    requires PhraseOk(p) && p.last.Whole? && p.last.operand.Cd?
    ensures Advance(StateOf(p), token) == StateAfter(Extend(p, token))
  {
    DoneGrows(p.done, p.last.operand, AndOp);
  }

  lemma MovesClose(p: Phrase, op: Operator)
    requires p.last.Whole?
    ensures StateOf(Close(p, op)) == Commit(StateOf(p), NodeBefore(p.last.operand, op), OpNode(op))
  {
    DoneGrows(p.done, p.last.operand, op);
  }

  lemma MovesItem(p: Phrase, i: Item)
    requires p.last.Whole? && p.last.operand.Cmd?
    ensures var o := p.last.operand;
      var c, d := NodeOf(o), NodeOf(o.(items := o.items + [i]));
      && (i.Word? ==> d == c.(argv := c.argv + [i.text]))
      && (i.Merge? ==> d == c.(stderr := STDOUT))
  {
    var o := p.last.operand;
    ItemsGrow(o.items, i);
    if i.Word? {
      assert [o.name] + Words(o.items) + [i.text] == [o.name] + (Words(o.items) + [i.text]);
    }
  }

  lemma MovesCommand(p: Phrase, token: string)
    requires PhraseOk(p) && p.last.Whole? && p.last.operand.Cmd?
    ensures Advance(StateOf(p), token) == StateAfter(Extend(p, token))
  {
    match MeaningOf(token)
    case ErrToOut => MovesItem(p, Merge);
    case PipeSign => MovesClose(p, PipeOp);
    case AndSign => MovesClose(p, AndOp);
    case OrSign => MovesClose(p, OrOp);
    case Plain => MovesItem(p, Word(token));
    case _ => MovesOpen(p, token);
  }

  lemma MovesOpen(p: Phrase, token: string)
    requires PhraseOk(p) && p.last.Whole? && p.last.operand.Cmd?
    requires MeaningOf(token).ToStdout? || MeaningOf(token).ToStderr? || MeaningOf(token).FromStdin?
    ensures Advance(StateOf(p), token) == StateAfter(Extend(p, token))
  {
  }

  lemma MovesRedirect(o: Operand, c: Channel, token: string)
    requires o.Cmd? && ItemsOk(o.items) && FileFor(o.items, c).None? && (c.Err? ==> !HasMerge(o.items))
    ensures var n, d := NodeOf(o), NodeOf(o.(items := o.items + [Redirect(c, token)]));
      match c
      case Out => n.stdout == Inherit && d == n.(stdout := File(token))
      case Err => n.stderr == Inherit && d == n.(stderr := File(token))
      case In => n.stdin == None && d == n.(stdin := Some(token))
  {
    ItemsGrow(o.items, Redirect(c, token));
  }

  lemma RedirectedTwice(o: Operand, c: Channel)
    requires o.Cmd? && (FileFor(o.items, c).Some? || (c.Err? && HasMerge(o.items)))
    ensures match c
      case Out => NodeOf(o).stdout != Inherit
      case Err => NodeOf(o).stderr != Inherit
      case In => NodeOf(o).stdin != None
  {
  }

  lemma MovesDangling(p: Phrase, token: string)
    requires PhraseOk(p) && p.last.Dangling?
    ensures Advance(StateOf(p), token) == StateAfter(Extend(p, token))
  {
    var o, c := p.last.operand, p.last.channel;
    if Extend(p, token).Some? {
      MovesRedirect(o, c, token);
      assert Advance(StateOf(p), token) == FileName(StateOf(p), NodeOf(o), token);
    } else {
      RedirectedTwice(o, c);
    }
  }

  /** One token moves the machine exactly as it extends the phrase. */
  lemma StepAgrees(p: Phrase, token: string)
    requires PhraseOk(p)
    ensures Advance(StateOf(p), token) == StateAfter(Extend(p, token)) && Grows(p, token)
  {
    match p.last
    case Assignments(_) => MovesAssignments(p, token); GrowsAssignments(p, token);
    case Whole(Cd(_)) => MovesCd(p, token); GrowsCd(p, token);
    case Whole(Cmd(_, _, _)) => MovesCommand(p, token); GrowsCommand(p, token);
    case Dangling(_, _) => MovesDangling(p, token); GrowsDangling(p, token);
  }

  /** Every phrase comes from a shorter one by one token. */
  lemma Shrink(p: Phrase) returns (q: Phrase, token: string)
    requires PhraseOk(p) && Tokens(p) != []
    ensures PhraseOk(q) && Extend(q, token) == Some(p)
  {
    match p.last
    case Assignments(env) =>
      if env == [] {
        q, token := ShrinkDone(p);
      } else {
        q, token := ShrinkAssignments(p);
      }
    case Whole(Cd(_)) => q, token := ShrinkCd(p);
    case Whole(Cmd(_, _, items)) =>
      if items == [] {
        q, token := ShrinkName(p);
      } else {
        q, token := ShrinkItem(p);
      }
    case Dangling(_, _) => q, token := ShrinkDangling(p);
  }

  lemma ShrinkAssignments(p: Phrase) returns (q: Phrase, token: string)
    requires PhraseOk(p) && p.last.Assignments? && p.last.env != []
    ensures PhraseOk(q) && Extend(q, token) == Some(p)
  {
    var env := p.last.env;
    q, token := p.(last := Assignments(env[..|env| - 1])), env[|env| - 1];
    InitLast(env);
  }

  lemma ShrinkCd(p: Phrase) returns (q: Phrase, token: string)
    requires PhraseOk(p) && p.last.Whole? && p.last.operand.Cd?
    ensures PhraseOk(q) && Extend(q, token) == Some(p)
  {
    if p.last.operand.dir.Some? {
      q, token := p.(last := Whole(Cd(None))), p.last.operand.dir.value;
    } else {
      q, token := p.(last := Assignments([])), "cd";
      assert FirstEquals("cd") == 2;
    }
  }

  lemma ShrinkName(p: Phrase) returns (q: Phrase, token: string)
    requires PhraseOk(p) && p.last.Whole? && p.last.operand.Cmd? && p.last.operand.items == []
    ensures PhraseOk(q) && Extend(q, token) == Some(p)
  {
    q, token := p.(last := Assignments(p.last.operand.env)), p.last.operand.name;
  }

  lemma ShrinkDangling(p: Phrase) returns (q: Phrase, token: string)
    requires PhraseOk(p) && p.last.Dangling?
    ensures PhraseOk(q) && Extend(q, token) == Some(p)
  {
    q, token := p.(last := Whole(p.last.operand)), Spelling(ChannelSign(p.last.channel));
    SpellingMeans(ChannelSign(p.last.channel), token);
  }

  lemma ShrinkDone(p: Phrase) returns (q: Phrase, token: string)
    requires PhraseOk(p) && p.last == Assignments([]) && p.done != []
    ensures PhraseOk(q) && Extend(q, token) == Some(p)
  {
    var before := p.done[..|p.done| - 1];
    var (o, op) := p.done[|p.done| - 1];
    assert p.done == before + [(o, op)] && DoneOk((o, op));
    q, token := Phrase(before, Whole(o)), Spelling(OperatorSign(op));
    SpellingMeans(OperatorSign(op), token);
  }

  lemma ShrinkItem(p: Phrase) returns (q: Phrase, token: string)
    requires PhraseOk(p) && p.last.Whole? && p.last.operand.Cmd? && p.last.operand.items != []
    ensures PhraseOk(q) && Extend(q, token) == Some(p)
  {
    var o := p.last.operand;
    var before, i := o.items[..|o.items| - 1], o.items[|o.items| - 1];
    assert o.items == before + [i];
    var shorter := o.(items := before);
    match i
    case Word(t) => q, token := p.(last := Whole(shorter)), t;
    case Redirect(c, f) => q, token := p.(last := Dangling(shorter, c)), f;
    case Merge =>
      q, token := p.(last := Whole(shorter)), Spelling(ErrToOut);
      SpellingMeans(ErrToOut, token);
  }

  lemma {:induction false} PhraseIsReached(p: Phrase)
    requires PhraseOk(p)
    ensures RunMachine(Tokens(p)) == Some(StateOf(p))
    decreases |Tokens(p)|
  {
    if Tokens(p) == [] {
      NoTokensNothingDone(p.done);
    } else {
      var q, token := Shrink(p);
      StepAgrees(q, token);
      PhraseIsReached(q);
      AppendInit(Tokens(q), token);
    }
  }

  lemma NoTokensNothingDone(done: seq<(Operand, Operator)>)
    requires DoneTokens(done) == []
    ensures done == []
  {
  }

  lemma ExtendTo(q: Phrase, token: string, m: Machine) returns (p: Phrase)
    requires PhraseOk(q) && Advance(StateOf(q), token) == Some(m)
    ensures PhraseOk(p) && Tokens(p) == Tokens(q) + [token] && StateOf(p) == m
  {
    StepAgrees(q, token);
    p := Extend(q, token).value;
  }

  lemma {:induction false} ReachedIsPhrase(tokens: seq<string>) returns (p: Phrase)
    requires RunMachine(tokens).Some?
    ensures PhraseOk(p) && Tokens(p) == tokens && StateOf(p) == RunMachine(tokens).value
  {
    if tokens == [] {
      p := Phrase([], Assignments([]));
    } else {
      InitLast(tokens);
      var q := ReachedIsPhrase(tokens[..|tokens| - 1]);
      p := ExtendTo(q, tokens[|tokens| - 1], RunMachine(tokens).value);
    }
  }

  ghost predicate Spells(p: Phrase, tokens: seq<string>, nodes: seq<Node>) {
    PhraseOk(p) && !p.last.Assignments? && Tokens(p) == tokens && Nodes(p) == nodes
  }

  /** The parser accepts exactly the phrases of the grammar, and returns what they mean. */
  lemma ParseIffSpelled(tokens: seq<string>, nodes: seq<Node>)
    ensures Parse(tokens) == Parsed(nodes) <==> exists p :: Spells(p, tokens, nodes)
  {
    if Parse(tokens) == Parsed(nodes) {
      var p := ReachedIsPhrase(tokens);
      assert Spells(p, tokens, nodes);
    }
    if p :| Spells(p, tokens, nodes) {
      PhraseIsReached(p);
    }
  }

  // ---------------------------------------------------------------- the parsed pipelines

  predicate CommandOk(n: Node)
    requires n.Command?
  {
    && n.argv != [] && EnvMatch(n.argv[0]).None? && n.argv[0] != "cd"
    && (forall i :: 1 <= i < |n.argv| ==> MeaningOf(n.argv[i]).Plain?)
    && n.stdout != STDOUT && n.stderr != PIPE
    && (n.envVars.Some? ==> EnvOk(n.envVars.value))
  }

  predicate EnvOk(m: map<string, string>) {
    m != map[] && forall k :: k in m ==> IsName(k) && IsValue(m[k])
  }

  /** A pipe follows a command exactly when its output is piped; nothing but "and" follows a cd. */
  predicate OperandNodeOk(n: Node, next: Option<Node>) {
    match n
    case Command(_, _, _, _, _) => CommandOk(n) && (n.stdout == PIPE <==> next == Some(Pipe))
    case Chdir(dir) => (dir.Some? ==> !MeaningOf(dir.value).AndSign?) && (next == None || next == Some(And))
    case _ => false
  }

  predicate DoneNodesOk(nodes: seq<Node>) {
    nodes == [] ||
    var k := |nodes| - 2;
    k >= 0 && DoneNodesOk(nodes[..k]) && IsOp(nodes[k + 1]) && OperandNodeOk(nodes[k], Some(nodes[k + 1]))
  }

  /** Operand (operator operand)*, with what the parser guarantees of each operand. */
  predicate WellFormed(nodes: seq<Node>) {
    nodes != [] && DoneNodesOk(nodes[..|nodes| - 1]) && OperandNodeOk(nodes[|nodes| - 1], None)
  }

  lemma {:induction false} WordsPlain(items: seq<Item>)
    requires ItemsOk(items)
    ensures forall i :: 0 <= i < |Words(items)| ==> MeaningOf(Words(items)[i]).Plain?
  {
    if items != [] {
      WordsPlain(items[..|items| - 1]);
    }
  }

  lemma {:induction false} EnvMapOk(env: seq<string>)
    ensures forall k :: k in EnvMap(env) ==> IsName(k) && IsValue(EnvMap(env)[k])
  {
    if env != [] {
      EnvMapOk(env[..|env| - 1]);
    }
  }

  lemma OperandGivesNode(o: Operand)
    requires OperandOk(o) && o.Cmd?
    ensures CommandOk(NodeOf(o)) && NodeOf(o).stdout != PIPE
  {
    WordsPlain(o.items);
    EnvMapOk(o.env);
    var n := NodeOf(o);
    assert forall i :: 1 <= i < |n.argv| ==> n.argv[i] == Words(o.items)[i - 1];
  }

  lemma {:induction false} DoneGivesNodes(done: seq<(Operand, Operator)>)
    requires forall i :: 0 <= i < |done| ==> DoneOk(done[i])
    ensures DoneNodesOk(DoneNodes(done))
  {
    if done != [] {
      var before := done[..|done| - 1];
      var (o, op) := done[|done| - 1];
      DoneGivesNodes(before);
      assert DoneOk((o, op));
      PairGivesNodes(o, op);
      DoneNodesGrow(DoneNodes(before), NodeBefore(o, op), OpNode(op));
    }
  }

  lemma PairGivesNodes(o: Operand, op: Operator)
    requires DoneOk((o, op))
    ensures OperandNodeOk(NodeBefore(o, op), Some(OpNode(op)))
  {
    if o.Cmd? {
      OperandGivesNode(o);
    }
  }

  lemma DoneNodesGrow(nodes: seq<Node>, n: Node, op: Node)
    requires DoneNodesOk(nodes) && IsOp(op) && OperandNodeOk(n, Some(op))
    ensures DoneNodesOk(nodes + [n, op])
  {
    assert (nodes + [n, op])[..|nodes|] == nodes;
  }

  /** Every token list the parser accepts yields a well-formed pipeline. */
  lemma ParsedIsWellFormed(tokens: seq<string>)
    requires Parse(tokens).Parsed?
    ensures WellFormed(Parse(tokens).nodes)
  {
    var nodes := Parse(tokens).nodes;
    ParseIffSpelled(tokens, nodes);
    var p :| Spells(p, tokens, nodes);
    DoneGivesNodes(p.done);
    assert nodes[..|nodes| - 1] == DoneNodes(p.done);
    if p.last.operand.Cmd? {
      OperandGivesNode(p.last.operand);
    }
  }

  // ------------------------------------------------------------------------- round trip

  /** The assignments of an environment, in some order. */
  ghost function EnvTokens(m: map<string, string>): seq<string> {
    if m == map[] then [] else
      var k := AnyKey(m);
      EnvTokens(m - {k}) + [k + "=" + m[k]]
  }

  ghost function AnyKey(m: map<string, string>): (k: string)
    requires m != map[]
    ensures k in m
  {
    var k :| k in m; k
  }

  lemma {:induction false} EnvTokensRead(m: map<string, string>)
    requires forall k :: k in m ==> IsName(k) && IsValue(m[k])
    ensures AllAssignments(EnvTokens(m)) && EnvMap(EnvTokens(m)) == m
  {
    if m != map[] {
      var k := AnyKey(m);
      EnvTokensRead(m - {k});
      AssignmentRead(EnvTokens(m - {k}), k, m[k]);
      PutBack(m, k);
    }
  }

  lemma PutBack(m: map<string, string>, k: string)
    requires k in m
    ensures (m - {k})[k := m[k]] == m
  {
  }

  lemma AssignmentRead(env: seq<string>, name: string, value: string)
    requires AllAssignments(env) && IsName(name) && IsValue(value)
    ensures AllAssignments(env + [name + "=" + value])
    ensures EnvMap(env + [name + "=" + value]) == EnvMap(env)[name := value]
  {
    AssignmentMatches(name, value);
    EnvGrows(env, name + "=" + value);
  }

  function WordItems(words: seq<string>): seq<Item> {
    if words == [] then [] else WordItems(words[..|words| - 1]) + [Word(words[|words| - 1])]
  }

  lemma {:induction false} WordItemsRead(words: seq<string>)
    requires forall i :: 0 <= i < |words| ==> MeaningOf(words[i]).Plain?
    ensures var items := WordItems(words);
      ItemsOk(items) && Words(items) == words && !HasMerge(items) && forall c :: FileFor(items, c) == None
  {
    if words != [] {
      var init, last := words[..|words| - 1], words[|words| - 1];
      WordItemsRead(init);
      InitLast(words);
      ItemsGrow(WordItems(init), Word(last));
      assert ItemsOk(WordItems(init) + [Word(last)]);
    }
  }

  function FileItem(c: Channel, f: Option<string>): seq<Item> {
    if f.Some? then [Redirect(c, f.value)] else []
  }

  function NameIn(s: Sink): Option<string> {
    if s.File? then Some(s.name) else None
  }

  /** Words first, then the input, output and error redirections. */
  function ItemsFor(n: Node): seq<Item>
    requires n.Command? && n.argv != []
  {
    InOutItems(n) + if n.stderr == STDOUT then [Merge] else FileItem(Err, NameIn(n.stderr))
  }

  function InOutItems(n: Node): seq<Item>
    requires n.Command? && n.argv != []
  {
    WordItems(n.argv[1..]) + FileItem(In, n.stdin) + FileItem(Out, NameIn(n.stdout))
  }

  lemma AddFile(items: seq<Item>, c: Channel, f: Option<string>)
    requires ItemsOk(items) && FileFor(items, c) == None && !HasMerge(items)
    ensures var more := items + FileItem(c, f);
      && ItemsOk(more) && Words(more) == Words(items) && !HasMerge(more)
      && FileFor(more, In) == (if c == In then f else FileFor(items, In))
      && FileFor(more, Out) == (if c == Out then f else FileFor(items, Out))
      && FileFor(more, Err) == (if c == Err then f else FileFor(items, Err))
  {
    if f.Some? {
      ItemsGrow(items, Redirect(c, f.value));
    } else {
      assert items + FileItem(c, f) == items;
    }
  }

  lemma InOutItemsRead(n: Node)
    requires n.Command? && CommandOk(n)
    ensures var items := InOutItems(n);
      && ItemsOk(items) && Words(items) == n.argv[1..] && FileFor(items, In) == n.stdin
      && FileFor(items, Out) == NameIn(n.stdout) && FileFor(items, Err) == None && !HasMerge(items)
  {
    TwoFilesRead(n.argv[1..], n.stdin, NameIn(n.stdout));
  }

  lemma TwoFilesRead(words: seq<string>, f: Option<string>, g: Option<string>)
    requires forall i :: 0 <= i < |words| ==> MeaningOf(words[i]).Plain?
    ensures var items := WordItems(words) + FileItem(In, f) + FileItem(Out, g);
      && ItemsOk(items) && Words(items) == words && !HasMerge(items)
      && FileFor(items, In) == f && FileFor(items, Out) == g && FileFor(items, Err) == None
  {
    var items := WordItems(words);
    WordItemsRead(words);
    AddFile(items, In, f);
    var more := items + FileItem(In, f);
    assert FileFor(more, Out) == FileFor(more, Err) == None;
    AddFile(more, Out, g);
  }

  lemma ItemsForRead(n: Node)
    requires n.Command? && CommandOk(n)
    ensures var items := ItemsFor(n);
      && ItemsOk(items) && Words(items) == n.argv[1..] && FileFor(items, In) == n.stdin
      && FileFor(items, Out) == NameIn(n.stdout)
      && (HasMerge(items) <==> n.stderr == STDOUT) && FileFor(items, Err) == NameIn(n.stderr)
  {
    InOutItemsRead(n);
    if n.stderr == STDOUT {
      ItemsGrow(InOutItems(n), Merge);
    } else {
      AddFile(InOutItems(n), Err, NameIn(n.stderr));
    }
  }

  ghost function OperandFor(n: Node): Operand
    requires n.Chdir? || (n.Command? && n.argv != [])
  {
    if n.Chdir? then Cd(n.dir)
    else Cmd(if n.envVars.Some? then EnvTokens(n.envVars.value) else [], n.argv[0], ItemsFor(n))
  }

  lemma OperandForRead(n: Node)
    requires n.Command? && CommandOk(n)
    ensures OperandOk(OperandFor(n)) && NodeOf(OperandFor(n)) == if n.stdout == PIPE then n.(stdout := Inherit) else n
    ensures n.stdout == PIPE ==> FileFor(OperandFor(n).items, Out) == None
  {
    ItemsForRead(n);
    assert [n.argv[0]] + n.argv[1..] == n.argv;
    if n.envVars.Some? {
      EnvTokensRead(n.envVars.value);
    }
  }

  function OperatorFor(n: Node): Operator {
    match n case Pipe => PipeOp case And => AndOp case _ => OrOp
  }

  ghost function DoneFor(nodes: seq<Node>): seq<(Operand, Operator)>
    requires DoneNodesOk(nodes)
  {
    if nodes == [] then [] else
      var k := |nodes| - 2;
      DoneFor(nodes[..k]) + [(OperandFor(nodes[k]), OperatorFor(nodes[k + 1]))]
  }

  lemma DonePairRead(n: Node, next: Node)
    requires IsOp(next) && OperandNodeOk(n, Some(next))
    ensures DoneOk((OperandFor(n), OperatorFor(next)))
    ensures NodeBefore(OperandFor(n), OperatorFor(next)) == n && OpNode(OperatorFor(next)) == next
  {
    if n.Command? {
      OperandForRead(n);
    }
  }

  lemma {:induction false} DoneForRead(nodes: seq<Node>)
    requires DoneNodesOk(nodes)
    ensures DoneNodes(DoneFor(nodes)) == nodes
    ensures forall i :: 0 <= i < |DoneFor(nodes)| ==> DoneOk(DoneFor(nodes)[i])
  {
    if nodes != [] {
      var k := |nodes| - 2;
      DoneForRead(nodes[..k]);
      DonePairRead(nodes[k], nodes[k + 1]);
      OnePairMore(DoneFor(nodes[..k]), OperandFor(nodes[k]), OperatorFor(nodes[k + 1]));
      LastTwo(nodes);
    }
  }

  lemma OnePairMore(done: seq<(Operand, Operator)>, o: Operand, op: Operator)
    requires (forall i :: 0 <= i < |done| ==> DoneOk(done[i])) && DoneOk((o, op))
    ensures var more := done + [(o, op)];
      && DoneNodes(more) == DoneNodes(done) + [NodeBefore(o, op), OpNode(op)]
      && forall i :: 0 <= i < |more| ==> DoneOk(more[i])
  {
    DoneGrows(done, o, op);
  }

  /** A token list for a well-formed pipeline. */
  ghost function Print(nodes: seq<Node>): seq<string>
    requires WellFormed(nodes)
  {
    Tokens(Phrase(DoneFor(nodes[..|nodes| - 1]), Whole(OperandFor(nodes[|nodes| - 1]))))
  }

  lemma LastRead(n: Node)
    requires OperandNodeOk(n, None)
    ensures OperandOk(OperandFor(n)) && NodeOf(OperandFor(n)) == n
  {
    if n.Command? {
      OperandForRead(n);
    }
  }

  /** Parsing the printed tokens of any well-formed pipeline gives that pipeline back. */
  lemma PrintThenParse(nodes: seq<Node>)
    requires WellFormed(nodes)
    ensures Parse(Print(nodes)) == Parsed(nodes)
  {
    var k := |nodes| - 1;
    var p := Phrase(DoneFor(nodes[..k]), Whole(OperandFor(nodes[k])));
    DoneForRead(nodes[..k]);
    LastRead(nodes[k]);
    InitLast(nodes);
    assert Spells(p, Print(nodes), nodes);
    ParseIffSpelled(Print(nodes), nodes);
  }

  /** The well-formed pipelines are exactly those that some token list parses to. */
  lemma WellFormedIffParsed(nodes: seq<Node>)
    ensures WellFormed(nodes) <==> exists tokens :: Parse(tokens) == Parsed(nodes)
  {
    if WellFormed(nodes) {
      PrintThenParse(nodes);
    }
    if tokens :| Parse(tokens) == Parsed(nodes) {
      ParsedIsWellFormed(tokens);
    }
  }
}
