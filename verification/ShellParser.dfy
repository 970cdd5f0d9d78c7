/**
  The parser of the shell-like command lines of waf-tools/shellcmd.py: from tokens to a list
  of commands, directory changes and operators.  A failed assertion is an error result.
 */
module ShellParser {
  import opened Wrappers

  /** Where a stream goes: inherited, to a file, into a pipe, or where standard output goes. */
  datatype Redirect = Inherited | ToFile(file: string) | ToPipe | ToStdout

  datatype Node =
    | Command(name: string, argv: seq<string>, stdin: Option<string>, stdout: Redirect, stderr: Redirect,
              env: map<string, string>)
    | Chdir(dir: Option<string>)
    | Pipe
    | And
    | Or

  /** The six states of the parser's loop. */
  datatype Mode = Begin | InCommand | InChdir | WantStderr | WantStdout | WantStdin

  datatype Parser = Parser(mode: Mode, current: Option<Node>, pipeline: seq<Node>, env: map<string, string>)

  datatype Result<T> = Ok(value: T) | AssertionFailed

  function NewCommand(name: string, env: map<string, string>): Node {
    Command(name, [name], None, Inherited, Inherited, env)
  }

  // ---------------------------------------------------------------- environment assignments

  predicate IsWordChar(c: char) {
    'a' <= c <= 'z' || 'A' <= c <= 'Z' || '0' <= c <= '9' || c == '_'
  }

  predicate IsSpace(c: char) {
    c == ' ' || c == '\t' || c == '\n' || c == '\r' || c == '\U{0B}' || c == '\U{0C}'
  }

  predicate IsKey(s: string) {
    s != "" && forall i :: 0 <= i < |s| ==> IsWordChar(s[i])
  }

  predicate IsValue(s: string) {
    s != "" && forall i :: 0 <= i < |s| ==> !IsSpace(s[i])
  }

  /** How far the word characters at the front of s go. */
  function WordLength(s: string): (n: nat)
    ensures n <= |s|
    ensures forall i :: 0 <= i < n ==> IsWordChar(s[i])
    ensures n < |s| ==> !IsWordChar(s[n])
  {
    if s != "" && IsWordChar(s[0]) then 1 + WordLength(s[1..]) else 0
  }

  /**
    The match of the pattern ^([a-zA-Z0-9_]+)=(\S+)$ with its two groups.  The dollar sign also
    matches before a newline that ends the token.
   */
  function EnvMatch(token: string): Option<(string, string)> {
    var n := WordLength(token);
    if n == 0 || n == |token| || token[n] != '=' then None else
    var rest := token[n + 1..];
    if IsValue(rest) then Some((token[..n], rest))
    else if rest != "" && rest[|rest| - 1] == '\n' && IsValue(rest[..|rest| - 1]) then
      Some((token[..n], rest[..|rest| - 1]))
    else None
  }

  // ---------------------------------------------------------------- the parser's loop, as a function

  predicate IsOperator(token: string) {
    token in [">", "2>", "2>&1", "<", "|", "&&", "||"]
  }

  function Commit(p: Parser, op: Node): Result<Parser> {
    if p.current.None? then AssertionFailed
    else Ok(Parser(Begin, None, p.pipeline + [p.current.value, op], p.env))
  }

  function BeginStep(p: Parser, token: string): Result<Parser> {
    match EnvMatch(token)
    case Some(kv) => Ok(p.(env := p.env[kv.0 := kv.1]))
    case None =>
      if p.current.Some? then AssertionFailed
      else if token == "cd" then
        if p.env != map[] then AssertionFailed else Ok(p.(mode := InChdir, current := Some(Chdir(None))))
      else Ok(Parser(InCommand, Some(NewCommand(token, p.env)), p.pipeline, map[]))
  }

  function CommandStep(p: Parser, token: string): Result<Parser>
    requires p.current.Some? && p.current.value.Command?
  {
    var cmd := p.current.value;
    if token == ">" then Ok(p.(mode := WantStdout))
    else if token == "2>" then Ok(p.(mode := WantStderr))
    else if token == "2>&1" then
      if cmd.stderr != Inherited then AssertionFailed else Ok(p.(current := Some(cmd.(stderr := ToStdout))))
    else if token == "<" then Ok(p.(mode := WantStdin))
    else if token == "|" then
      if cmd.stdout != Inherited then AssertionFailed
      else Commit(p.(current := Some(cmd.(stdout := ToPipe))), Pipe)
    else if token == "&&" then Commit(p, And)
    else if token == "||" then Commit(p, Or)
    else Ok(p.(current := Some(cmd.(argv := cmd.argv + [token]))))
  }

  function ChdirStep(p: Parser, token: string): Result<Parser>
    requires p.current.Some? && p.current.value.Chdir?
  {
    if token == "&&" then Commit(p, And)
    else if p.current.value.dir.Some? then AssertionFailed
    else Ok(p.(current := Some(Chdir(Some(token)))))
  }

  function RedirectStep(p: Parser, token: string): Result<Parser>
    requires p.current.Some? && p.current.value.Command?
  {
    var cmd := p.current.value;
    match p.mode
    case WantStdout =>
      if cmd.stdout != Inherited then AssertionFailed
      else Ok(p.(mode := InCommand, current := Some(cmd.(stdout := ToFile(token)))))
    case WantStderr =>
      if cmd.stderr != Inherited then AssertionFailed
      else Ok(p.(mode := InCommand, current := Some(cmd.(stderr := ToFile(token)))))
    case _ =>
      if cmd.stdin != None then AssertionFailed
      else Ok(p.(mode := InCommand, current := Some(cmd.(stdin := Some(token)))))
  }

  /** The mode says which node is under construction. */
  predicate Consistent(p: Parser) {
    match p.mode
    case Begin => p.current == None
    case InChdir => p.current.Some? && p.current.value.Chdir?
    case _ => p.current.Some? && p.current.value.Command?
  }

  function Step(p: Parser, token: string): (r: Result<Parser>)
    requires Consistent(p)
    ensures r.Ok? ==> Consistent(r.value)
  {
    match p.mode
    case Begin => BeginStep(p, token)
    case InCommand => CommandStep(p, token)
    case InChdir => ChdirStep(p, token)
    case _ => RedirectStep(p, token)
  }

  function Feed(p: Parser, tokens: seq<string>): (r: Result<Parser>)
    requires Consistent(p)
    ensures r.Ok? ==> Consistent(r.value)
    decreases tokens
  {
    if tokens == [] then Ok(p) else
    match Step(p, tokens[0])
    case AssertionFailed => AssertionFailed
    case Ok(q) => Feed(q, tokens[1..])
  }

  const Start := Parser(Begin, None, [], map[])

  /** The last command is committed whatever state the loop ends in. */
  function Finish(r: Result<Parser>): Result<seq<Node>> {
    if r.Ok? && r.value.current.Some? then Ok(r.value.pipeline + [r.value.current.value]) else AssertionFailed
  }

  function Parse(tokens: seq<string>): Result<seq<Node>> {
    Finish(Feed(Start, tokens))
  }

  // ---------------------------------------------------------------- the program

  class Pipeline {
    var currentCommand: Option<Node>
    var pipeline: seq<Node>

    constructor ()
      ensures currentCommand == None && pipeline == []
    {
      currentCommand := None;
      pipeline := [];
    }

    /** The assertion at the head of the source's method is the caller's guard here. */
    method CommitCommand()
      requires currentCommand.Some?
      modifies this
      ensures pipeline == old(pipeline) + [old(currentCommand.value)] && currentCommand == None
    {
      pipeline := pipeline + [currentCommand.value];
      currentCommand := None;
    }

    /** The state machine over the tokens; ok is false when an assertion fails on the way. */
    method ParseTokens(tokens0: seq<string>) returns (ok: bool)
      modifies this
      ensures ok <==> Parse(tokens0).Ok?
      ensures ok ==> pipeline == Parse(tokens0).value && currentCommand == None
    {
      currentCommand := None;
      pipeline := [];
      var tokens := tokens0;
      var state := Begin;
      var envVars: map<string, string> := map[];
      while tokens != []
        invariant Consistent(Parser(state, currentCommand, pipeline, envVars))
        invariant Feed(Start, tokens0) == Feed(Parser(state, currentCommand, pipeline, envVars), tokens)
      {
        var token := tokens[0];
        ghost var before := Parser(state, currentCommand, pipeline, envVars);
        tokens := tokens[1..];
        match state {
          case Begin =>
            var m := EnvMatch(token);
            if m.Some? {
              envVars := envVars[m.value.0 := m.value.1];
            } else if token == "cd" {
              currentCommand := Some(Chdir(None));
              if envVars != map[] {
                return false;
              }
              state := InChdir;
            } else {
              currentCommand := Some(NewCommand(token, envVars));
              envVars := map[];
              state := InCommand;
            }
          case InCommand =>
            var cmd := currentCommand.value;
            if token == ">" {
              state := WantStdout;
            } else if token == "2>" {
              state := WantStderr;
            } else if token == "2>&1" {
              if cmd.stderr != Inherited {
                return false;
              }
              currentCommand := Some(cmd.(stderr := ToStdout));
            } else if token == "<" {
              state := WantStdin;
            } else if token == "|" {
              if cmd.stdout != Inherited {
                return false;
              }
              currentCommand := Some(cmd.(stdout := ToPipe));
              CommitCommand();
              pipeline := pipeline + [Pipe];
              assert pipeline == before.pipeline + [cmd.(stdout := ToPipe), Pipe];
              state := Begin;
            } else if token == "&&" {
              CommitCommand();
              pipeline := pipeline + [And];
              assert pipeline == before.pipeline + [before.current.value, And];
              state := Begin;
            } else if token == "||" {
              CommitCommand();
              pipeline := pipeline + [Or];
              assert pipeline == before.pipeline + [before.current.value, Or];
              state := Begin;
            } else {
              currentCommand := Some(cmd.(argv := cmd.argv + [token]));
            }
          case InChdir =>
            if token == "&&" {
              CommitCommand();
              pipeline := pipeline + [And];
              assert pipeline == before.pipeline + [before.current.value, And];
              state := Begin;
            } else {
              if currentCommand.value.dir.Some? {
                return false;
              }
              currentCommand := Some(Chdir(Some(token)));
            }
          case WantStdout =>
            if currentCommand.value.stdout != Inherited {
              return false;
            }
            currentCommand := Some(currentCommand.value.(stdout := ToFile(token)));
            state := InCommand;
          case WantStderr =>
            if currentCommand.value.stderr != Inherited {
              return false;
            }
            currentCommand := Some(currentCommand.value.(stderr := ToFile(token)));
            state := InCommand;
          case WantStdin =>
            if currentCommand.value.stdin != None {
              return false;
            }
            currentCommand := Some(currentCommand.value.(stdin := Some(token)));
            state := InCommand;
        }
        assert Step(before, token) == Ok(Parser(state, currentCommand, pipeline, envVars));
      }
      if currentCommand == None {
        return false;
      }
      CommitCommand();
      return true;
    }
  }
}
