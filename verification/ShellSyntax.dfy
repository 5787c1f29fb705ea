/**
  Tokens and parse results of the shell pipelines of waf-tools/shellcmd.py.
*/
module ShellSyntax {
  import opened Prelude

  /** Where a stream goes: left alone, into a pipe, with the standard output, or to a named file. */
  datatype Sink = Inherit | PIPE | STDOUT | File(name: string)

  datatype Node =
    | Pipe
    | And
    | Or
    | Command(argv: seq<string>, stdin: Option<string>, stdout: Sink, stderr: Sink,
              envVars: Option<map<string, string>>)
    | Chdir(dir: Option<string>)

  predicate IsOp(n: Node) {
    n.Pipe? || n.And? || n.Or?
  }

  // ------------------------------------------------------------------------------ tokens

  /** What a token means after a command name. */
  datatype Meaning = ToStdout | ToStderr | ErrToOut | FromStdin | PipeSign | AndSign | OrSign | Plain

  function MeaningOf(token: string): Meaning {
    if token == ">" then ToStdout
    else if token == "2>" then ToStderr
    else if token == "2>&1" then ErrToOut
    else if token == "<" then FromStdin
    else if token == "|" then PipeSign
    else if token == "&&" then AndSign
    else if token == "||" then OrSign
    else Plain
  }

  function Spelling(m: Meaning): string
    requires !m.Plain?
  {
    match m
    case ToStdout => ">"
    case ToStderr => "2>"
    case ErrToOut => "2>&1"
    case FromStdin => "<"
    case PipeSign => "|"
    case AndSign => "&&"
    case OrSign => "||"
  }

  lemma SpellingMeans(m: Meaning, token: string)
    requires !m.Plain?
    ensures MeaningOf(Spelling(m)) == m
    ensures MeaningOf(token) == m ==> token == Spelling(m)
  {
    var t := Spelling(m);
    assert |t| > 0;
    assert |t| > 1 ==> t[1] == t[|t| - 1] || |t| == 4;
  }

  // ------------------------------------------------------------- environment assignments

  predicate IsWordChar(c: char) {
    'a' <= c <= 'z' || 'A' <= c <= 'Z' || '0' <= c <= '9' || c == '_'
  }

  /** What the regular expression class \s matches. */
  predicate IsSpace(c: char) {
    || '\t' <= c <= '\r' || '\U{1c}' <= c <= ' ' || c == '\U{85}' || c == '\U{a0}' || c == '\U{1680}'
    || '\U{2000}' <= c <= '\U{200a}' || c == '\U{2028}' || c == '\U{2029}' || c == '\U{202f}'
    || c == '\U{205f}' || c == '\U{3000}'
  }

  predicate IsName(s: string) {
    s != "" && forall i :: 0 <= i < |s| ==> IsWordChar(s[i])
  }

  predicate IsValue(s: string) {
    s != "" && forall i :: 0 <= i < |s| ==> !IsSpace(s[i])
  }

  /** The position of the first equals sign, or the length if there is none. */
  function FirstEquals(s: string): (i: nat)
    ensures i <= |s| && (i < |s| ==> s[i] == '=')
    ensures forall j :: 0 <= j < i ==> s[j] != '='
  {
    if s == "" || s[0] == '=' then 0 else 1 + FirstEquals(s[1..])
  }

  /** The match of env_var_rx: a name and a value. */
  function EnvMatch(token: string): (r: Option<(string, string)>)
    ensures r.Some? ==> IsName(r.value.0) && IsValue(r.value.1)
  {
    var i := FirstEquals(token);
    if i < |token| && IsName(token[..i]) && IsValue(Chomp(token[i + 1..]))
    then Some((token[..i], Chomp(token[i + 1..])))
    else None
  }

  /** A token is an assignment exactly if it is a name, an equals sign and a value, perhaps with a newline behind. */
  lemma EnvMatchIff(token: string, name: string, value: string)
    ensures EnvMatch(token) == Some((name, value)) <==>
      IsName(name) && IsValue(value) && (token == name + "=" + value || token == name + "=" + value + "\n")
  {
    if EnvMatch(token) == Some((name, value)) {
      MatchIsAssignment(token);
    }
    if IsName(name) && IsValue(value) {
      AssignmentMatches(name, value);
      LineMatches(name, value);
    }
  }

  lemma MatchIsAssignment(token: string)
    requires EnvMatch(token).Some?
    ensures var (name, value) := EnvMatch(token).value;
      token == name + "=" + value || token == name + "=" + value + "\n"
  {
    var i := FirstEquals(token);
    var name, rest := token[..i], token[i + 1..];
    assert token == name + "=" + rest;
    if Chomp(rest) != rest {
      assert rest == Chomp(rest) + "\n";
    }
  }

  lemma LineMatches(name: string, value: string)
    requires IsName(name) && IsValue(value)
    ensures EnvMatch(name + "=" + value + "\n") == Some((name, value))
  {
    assert name + "=" + value + "\n" == name + "=" + (value + "\n");
    SplitAtEquals(name, value + "\n");
    assert (value + "\n")[..|value|] == value;
  }

  lemma SplitAtEquals(name: string, rest: string)
    requires IsName(name)
    ensures var t := name + "=" + rest;
      FirstEquals(t) == |name| && t[..|name|] == name && t[|name| + 1..] == rest
  {
    var t := name + "=" + rest;
    assert t[|name|] == '=';
    assert forall j :: 0 <= j < |name| ==> t[j] == name[j] != '=';
  }

  lemma AssignmentMatches(name: string, value: string)
    requires IsName(name) && IsValue(value)
    ensures EnvMatch(name + "=" + value) == Some((name, value))
  {
    SplitAtEquals(name, value);
    assert !IsSpace(value[|value| - 1]);
  }
}
