/**
  Which pipelines the parser can return, and how to write one down so that parsing gives it back.
 */
module ShellSyntax {
  import opened Wrappers
  import opened ShellParser

  // ---------------------------------------------------------------- canonical pipelines

  ghost predicate EnvOk(env: map<string, string>) {
    forall k :: k in env ==> IsKey(k) && IsValue(env[k])
  }

  /** A command as the parser builds it; only a pipe operator may still come between it and its pipe. */
  ghost predicate CommandOk(n: Node) {
    && n.Command? && n.argv != [] && n.argv[0] == n.name
    && n.name != "cd" && EnvMatch(n.name) == None
    && (forall i :: 1 <= i < |n.argv| ==> !IsOperator(n.argv[i]))
    && n.stdout != ToStdout && n.stderr != ToPipe && EnvOk(n.env)
  }

  ghost predicate ChdirOk(n: Node) {
    n.Chdir? && n.dir != Some("&&")
  }

  /** A node and the operator after it. */
  ghost predicate PairOk(n: Node, op: Node) {
    match op
    case Pipe => CommandOk(n) && n.stdout == ToPipe
    case And => ChdirOk(n) || (CommandOk(n) && n.stdout != ToPipe)
    case Or => CommandOk(n) && n.stdout != ToPipe
    case _ => false
  }

  ghost predicate LastOk(n: Node) {
    ChdirOk(n) || (CommandOk(n) && n.stdout != ToPipe)
  }

  ghost predicate PairsOk(p: seq<Node>) {
    p != [] ==>
      var n := |p| - 2;
      n >= 0 && PairOk(p[n], p[n + 1]) && PairsOk(p[..n])
  }

  ghost predicate Canonical(p: seq<Node>) {
    p != [] && LastOk(p[|p| - 1]) && PairsOk(p[..|p| - 1])
  }

  lemma {:induction false} PairsAt(p: seq<Node>)
    requires PairsOk(p)
    ensures |p| % 2 == 0
    ensures forall i :: 0 <= i < |p| && i % 2 == 0 ==> i + 1 < |p| && PairOk(p[i], p[i + 1])
  {
    if p != [] {
      var n := |p| - 2;
      PairsAt(p[..n]);
      forall i | 0 <= i < |p| && i % 2 == 0 ensures i + 1 < |p| && PairOk(p[i], p[i + 1]) {
        assert i < n ==> p[..n][i] == p[i] && p[..n][i + 1] == p[i + 1];
      }
    }
  }

  lemma {:induction false} CanonicalAt(p: seq<Node>, i: nat)
    requires Canonical(p) && i < |p|
    ensures |p| % 2 == 1
    ensures if i % 2 == 1 then i + 1 < |p| && PairOk(p[i - 1], p[i])
            else if i + 1 < |p| then PairOk(p[i], p[i + 1])
            else LastOk(p[i])
  {
    var init := p[..|p| - 1];
    PairsAt(init);
    var j := if i % 2 == 0 then i else i - 1;
    if j < |init| {
      assert PairOk(init[j], init[j + 1]);
    }
  }

  /**
    The shape of whatever the parser returns: commands or directory changes alternate with
    operators, standard output is a pipe exactly where the next operator is one, and && follows
    every directory change but a last one.
   */
  lemma {:induction false} ParsedShape(tokens: seq<string>)
    requires Parse(tokens).Ok?
    ensures var p := Parse(tokens).value;
      && |p| % 2 == 1
      && (forall i :: 0 <= i < |p| ==> (i % 2 == 0 <==> p[i].Command? || p[i].Chdir?))
      && (forall i :: 0 <= i < |p| && p[i].Command? ==> (p[i].stdout == ToPipe <==> i + 1 < |p| && p[i + 1] == Pipe))
      && (forall i :: 0 <= i < |p| - 1 && p[i].Chdir? ==> p[i + 1] == And)
  {
    var p := Parse(tokens).value;
    ParsedCanonical(tokens);
    CanonicalAt(p, 0);
    forall i | 0 <= i < |p|
      ensures i % 2 == 0 <==> p[i].Command? || p[i].Chdir?
      ensures p[i].Command? ==> (p[i].stdout == ToPipe <==> i + 1 < |p| && p[i + 1] == Pipe)
      ensures i < |p| - 1 && p[i].Chdir? ==> p[i + 1] == And
    {
      CanonicalAt(p, i);
    }
  }

  // ---------------------------------------------------------------- the parser returns canonical pipelines

  ghost predicate ParserOk(p: Parser) {
    && Consistent(p) && PairsOk(p.pipeline) && EnvOk(p.env)
    && match p.mode
       case Begin => true
       case InChdir => ChdirOk(p.current.value) && p.env == map[]
       case _ => CommandOk(p.current.value) && p.current.value.stdout != ToPipe && p.env == map[]
  }

  lemma {:induction false} AppendPair(p: seq<Node>, n: Node, op: Node)
    requires PairsOk(p) && PairOk(n, op)
    ensures PairsOk(p + [n, op])
  {
    assert (p + [n, op])[..|p|] == p;
  }

  lemma {:induction false} BeginStepOk(p: Parser, token: string)
    requires ParserOk(p) && p.mode == Begin && BeginStep(p, token).Ok?
    ensures ParserOk(BeginStep(p, token).value)
  {
  }

  lemma {:induction false} CommitOk(p: Parser, op: Node)
    requires PairsOk(p.pipeline) && p.env == map[] && p.current.Some? && PairOk(p.current.value, op)
    ensures Commit(p, op).Ok? && ParserOk(Commit(p, op).value)
  {
    AppendPair(p.pipeline, p.current.value, op);
  }

  lemma {:induction false} AppendArg(cmd: Node, token: string)
    requires CommandOk(cmd) && !IsOperator(token)
    ensures CommandOk(cmd.(argv := cmd.argv + [token]))
  {
  }

  lemma {:induction false} ConnectorOk(p: Parser, token: string)
    requires ParserOk(p) && p.mode == InCommand && CommandStep(p, token).Ok?
    requires token == "|" || token == "&&" || token == "||"
    ensures ParserOk(CommandStep(p, token).value)
  {
    var cmd := p.current.value;
    if token == "|" {
      CommitOk(p.(current := Some(cmd.(stdout := ToPipe))), Pipe);
    } else if token == "&&" {
      CommitOk(p, And);
    } else {
      CommitOk(p, Or);
    }
  }

  lemma {:induction false} RedirectionOk(p: Parser, token: string)
    requires ParserOk(p) && p.mode == InCommand && CommandStep(p, token).Ok?
    requires token == ">" || token == "2>" || token == "2>&1" || token == "<"
    ensures ParserOk(CommandStep(p, token).value)
  {
  }

  lemma {:induction false} CommandStepOk(p: Parser, token: string)
    requires ParserOk(p) && p.mode == InCommand && CommandStep(p, token).Ok?
    ensures ParserOk(CommandStep(p, token).value)
  {
    if token == "|" || token == "&&" || token == "||" {
      ConnectorOk(p, token);
    } else if IsOperator(token) {
      RedirectionOk(p, token);
    } else {
      AppendArg(p.current.value, token);
    }
  }

  lemma {:induction false} StepOk(p: Parser, token: string)
    requires ParserOk(p) && Step(p, token).Ok?
    ensures ParserOk(Step(p, token).value)
  {
    match p.mode {
      case Begin => BeginStepOk(p, token);
      case InCommand => CommandStepOk(p, token);
      case InChdir =>
        if token == "&&" {
          CommitOk(p, And);
        }
      case _ =>
    }
  }

  lemma {:induction false} FeedOk(p: Parser, tokens: seq<string>)
    requires ParserOk(p) && Feed(p, tokens).Ok?
    ensures ParserOk(Feed(p, tokens).value)
    decreases tokens
  {
    if tokens != [] {
      StepOk(p, tokens[0]);
      FeedOk(Step(p, tokens[0]).value, tokens[1..]);
    }
  }

  lemma {:induction false} ParsedCanonical(tokens: seq<string>)
    requires Parse(tokens).Ok?
    ensures Canonical(Parse(tokens).value)
  {
    FeedOk(Start, tokens);
    var q := Feed(Start, tokens).value;
    assert (q.pipeline + [q.current.value])[..|q.pipeline|] == q.pipeline;
  }

  // ---------------------------------------------------------------- rendering

  /** The assignments may be written in any order. */
  ghost predicate OrderOf(n: Node, order: seq<string>) {
    n.Command? ==> forall k :: k in order <==> k in n.env
  }

  function EnvTokens(env: map<string, string>, order: seq<string>): seq<string>
    requires forall k :: k in order ==> k in env
    decreases order
  {
    if order == [] then [] else [order[0] + "=" + env[order[0]]] + EnvTokens(env, order[1..])
  }

  function RedirectTokens(n: Node): seq<string>
    requires n.Command?
  {
    (if n.stdin.Some? then ["<", n.stdin.value] else [])
    + (if n.stdout.ToFile? then [">", n.stdout.file] else [])
    + (if n.stderr.ToFile? then ["2>", n.stderr.file] else if n.stderr == ToStdout then ["2>&1"] else [])
  }

  function NodeTokens(n: Node, order: seq<string>): seq<string>
    requires n.Command? ==> forall k :: k in order ==> k in n.env
  {
    match n
    case Command(_, argv, _, _, _, env) => EnvTokens(env, order) + argv + RedirectTokens(n)
    case Chdir(dir) => if dir.Some? then ["cd", dir.value] else ["cd"]
    case _ => []
  }

  function OpToken(op: Node): string {
    if op.Pipe? then "|" else if op.And? then "&&" else "||"
  }

  /** For each node the order in which its assignments are written. */
  ghost predicate OrdersOf(p: seq<Node>, orders: seq<seq<string>>) {
    |orders| == |p| && forall i :: 0 <= i < |p| ==> OrderOf(p[i], orders[i])
  }

  ghost function PairTokens(p: seq<Node>, orders: seq<seq<string>>): seq<string>
    requires OrdersOf(p, orders)
  {
    if |p| < 2 then [] else
    var n := |p| - 2;
    PairTokens(p[..n], orders[..n]) + NodeTokens(p[n], orders[n]) + [OpToken(p[n + 1])]
  }

  ghost function Render(p: seq<Node>, orders: seq<seq<string>>): seq<string>
    requires p != [] && OrdersOf(p, orders)
  {
    var n := |p| - 1;
    PairTokens(p[..n], orders[..n]) + NodeTokens(p[n], orders[n])
  }

  // ---------------------------------------------------------------- parsing what was rendered

  lemma {:induction false} FeedAppend(p: Parser, a: seq<string>, b: seq<string>)
    requires Consistent(p)
    ensures Feed(p, a + b) == if Feed(p, a).Ok? then Feed(Feed(p, a).value, b) else AssertionFailed
    decreases a
  {
    if a == [] {
      assert a + b == b;
    } else {
      assert (a + b)[1..] == a[1..] + b;
      if Step(p, a[0]).Ok? {
        FeedAppend(Step(p, a[0]).value, a[1..], b);
      }
    }
  }

  lemma {:induction false} FeedOne(p: Parser, a: string)
    requires Consistent(p)
    ensures Feed(p, [a]) == Step(p, a)
  {
    assert [a][1..] == [];
    if Step(p, a).Ok? {
      assert Feed(Step(p, a).value, []) == Step(p, a);
    }
  }

  lemma {:induction false} WordLengthOf(k: string, rest: string)
    requires (forall i :: 0 <= i < |k| ==> IsWordChar(k[i])) && rest != "" && !IsWordChar(rest[0])
    ensures WordLength(k + rest) == |k|
  {
    if k == "" {
      assert k + rest == rest;
    } else {
      assert (k + rest)[1..] == k[1..] + rest;
      WordLengthOf(k[1..], rest);
    }
  }

  lemma {:induction false} EnvMatchOf(k: string, v: string)
    requires IsKey(k) && IsValue(v)
    ensures EnvMatch(k + "=" + v) == Some((k, v))
  {
    var rest := "=" + v;
    assert k + "=" + v == k + rest;
    WordLengthOf(k, rest);
    assert (k + rest)[..|k|] == k && (k + rest)[|k| + 1..] == v;
  }

  /** Assigning in order on top of what was assigned before. */
  function Assign(e0: map<string, string>, env: map<string, string>, order: seq<string>): map<string, string>
    requires forall k :: k in order ==> k in env
    decreases order
  {
    if order == [] then e0 else Assign(e0[order[0] := env[order[0]]], env, order[1..])
  }

  /** The order does not matter. */
  lemma {:induction false} AssignAll(e0: map<string, string>, env: map<string, string>, order: seq<string>)
    requires forall k :: k in order ==> k in env
    ensures forall k :: k in Assign(e0, env, order) <==> k in e0 || k in order
    ensures forall k :: k in Assign(e0, env, order) ==>
      Assign(e0, env, order)[k] == if k in order then env[k] else e0[k]
    decreases order
  {
    if order != [] {
      AssignAll(e0[order[0] := env[order[0]]], env, order[1..]);
    }
  }

  lemma {:induction false} FeedEnv(acc: seq<Node>, e0: map<string, string>, env: map<string, string>, order: seq<string>)
    requires EnvOk(env) && forall k :: k in order ==> k in env
    ensures Feed(Parser(Begin, None, acc, e0), EnvTokens(env, order)) == Ok(Parser(Begin, None, acc, Assign(e0, env, order)))
    decreases order
  {
    if order != [] {
      var k, rest := order[0], order[1..];
      EnvMatchOf(k, env[k]);
      var e1 := e0[k := env[k]];
      FeedOne(Parser(Begin, None, acc, e0), k + "=" + env[k]);
      FeedEnv(acc, e1, env, rest);
      FeedBoth(Parser(Begin, None, acc, e0), [k + "=" + env[k]], EnvTokens(env, rest),
               Parser(Begin, None, acc, e1), Parser(Begin, None, acc, Assign(e1, env, rest)));
    }
  }

  lemma {:induction false} FeedArgs(acc: seq<Node>, cmd: Node, words: seq<string>)
    requires cmd.Command? && forall i :: 0 <= i < |words| ==> !IsOperator(words[i])
    ensures Feed(Parser(InCommand, Some(cmd), acc, map[]), words)
         == Ok(Parser(InCommand, Some(cmd.(argv := cmd.argv + words)), acc, map[]))
    decreases words
  {
    if words == [] {
      assert cmd.argv + words == cmd.argv;
    } else {
      var next := cmd.(argv := cmd.argv + [words[0]]);
      FeedArgs(acc, next, words[1..]);
      assert next.argv + words[1..] == cmd.argv + words;
    }
  }

  /** Two tokens that make up one redirection. */
  lemma {:induction false} FeedRedirect(p: Parser, a: string, file: string)
    requires Consistent(p) && p.mode == InCommand
    requires a == "<" || a == ">" || a == "2>"
    ensures Feed(p, [a, file]) == RedirectStep(p.(mode := if a == "<" then WantStdin else if a == ">" then WantStdout else WantStderr), file)
  {
    var q := Step(p, a).value;
    assert [a, file][1..] == [file];
    FeedOne(q, file);
  }

  /** The command before the operator after it is seen. */
  function Unpiped(n: Node): Node
    requires n.Command?
  {
    if n.stdout == ToPipe then n.(stdout := Inherited) else n
  }

  lemma {:induction false} FeedRedirects(acc: seq<Node>, n: Node)
    requires CommandOk(n)
    ensures Feed(Parser(InCommand, Some(n.(stdin := None, stdout := Inherited, stderr := Inherited)), acc, map[]), RedirectTokens(n))
         == Ok(Parser(InCommand, Some(Unpiped(n)), acc, map[]))
  {
    var bare := n.(stdin := None, stdout := Inherited, stderr := Inherited);
    var p0 := Parser(InCommand, Some(bare), acc, map[]);
    var a := if n.stdin.Some? then ["<", n.stdin.value] else [];
    var b := if n.stdout.ToFile? then [">", n.stdout.file] else [];
    var d := if n.stderr.ToFile? then ["2>", n.stderr.file] else if n.stderr == ToStdout then ["2>&1"] else [];
    var p1 := p0.(current := Some(bare.(stdin := n.stdin)));
    if n.stdin.Some? { FeedRedirect(p0, "<", n.stdin.value); }
    assert Feed(p0, a) == Ok(p1);
    var p2 := p0.(current := Some(Unpiped(n).(stderr := Inherited)));
    if n.stdout.ToFile? { FeedRedirect(p1, ">", n.stdout.file); }
    assert Feed(p1, b) == Ok(p2);
    var p3 := p0.(current := Some(Unpiped(n)));
    if n.stderr.ToFile? {
      FeedRedirect(p2, "2>", n.stderr.file);
    } else if n.stderr == ToStdout {
      FeedOne(p2, "2>&1");
    }
    assert Feed(p2, d) == Ok(p3);
    FeedAppend(p0, a, b);
    FeedAppend(p0, a + b, d);
  }

  lemma {:induction false} FeedCommand(acc: seq<Node>, n: Node, order: seq<string>)
    requires CommandOk(n) && OrderOf(n, order)
    ensures Feed(Parser(Begin, None, acc, map[]), NodeTokens(n, order)) == Ok(Parser(InCommand, Some(Unpiped(n)), acc, map[]))
  {
    var p0 := Parser(Begin, None, acc, map[]);
    FeedEnv(acc, map[], n.env, order);
    AssignAll(map[], n.env, order);
    assert Assign(map[], n.env, order) == n.env;
    var p1 := Parser(Begin, None, acc, n.env);
    var cmd := NewCommand(n.name, n.env);
    var p2 := Parser(InCommand, Some(cmd), acc, map[]);
    FeedOne(p1, n.name);
    FeedArgs(acc, cmd, n.argv[1..]);
    assert cmd.argv + n.argv[1..] == n.argv;
    FeedRedirects(acc, n);
    var p3 := Parser(InCommand, Some(cmd.(argv := n.argv)), acc, map[]);
    FeedBoth(p1, [n.name], n.argv[1..], p2, p3);
    assert [n.name] + n.argv[1..] == n.argv;
    FeedBoth(p0, EnvTokens(n.env, order), n.argv, p1, p3);
    FeedBoth(p0, EnvTokens(n.env, order) + n.argv, RedirectTokens(n), p3, Parser(InCommand, Some(Unpiped(n)), acc, map[]));
  }

  lemma {:induction false} FeedChdir(acc: seq<Node>, n: Node, order: seq<string>)
    requires ChdirOk(n)
    ensures Feed(Parser(Begin, None, acc, map[]), NodeTokens(n, order)) == Ok(Parser(InChdir, Some(n), acc, map[]))
  {
    var p0 := Parser(Begin, None, acc, map[]);
    assert EnvMatch("cd") == None by {
      WordLengthAll("cd");
    }
    FeedOne(p0, "cd");
    var p1 := Parser(InChdir, Some(Chdir(None)), acc, map[]);
    if n.dir.Some? {
      FeedOne(p1, n.dir.value);
      FeedAppend(p0, ["cd"], [n.dir.value]);
      assert ["cd"] + [n.dir.value] == ["cd", n.dir.value];
    }
  }

  lemma {:induction false} WordLengthAll(k: string)
    requires forall i :: 0 <= i < |k| ==> IsWordChar(k[i])
    ensures WordLength(k) == |k|
  {
    if k != "" { WordLengthAll(k[1..]); }
  }

  lemma {:induction false} FeedPair(acc: seq<Node>, n: Node, op: Node, order: seq<string>)
    requires PairOk(n, op) && OrderOf(n, order)
    ensures Feed(Parser(Begin, None, acc, map[]), NodeTokens(n, order) + [OpToken(op)])
         == Ok(Parser(Begin, None, acc + [n, op], map[]))
  {
    var p0 := Parser(Begin, None, acc, map[]);
    FeedAppend(p0, NodeTokens(n, order), [OpToken(op)]);
    if n.Chdir? {
      FeedChdir(acc, n, order);
      FeedOne(Parser(InChdir, Some(n), acc, map[]), OpToken(op));
    } else {
      FeedCommand(acc, n, order);
      FeedOne(Parser(InCommand, Some(Unpiped(n)), acc, map[]), OpToken(op));
    }
  }

  lemma {:induction false} LastPairTokens(p: seq<Node>, orders: seq<seq<string>>)
    requires |p| >= 2 && OrdersOf(p, orders)
    ensures var n := |p| - 2;
      && PairTokens(p, orders) == PairTokens(p[..n], orders[..n]) + (NodeTokens(p[n], orders[n]) + [OpToken(p[n + 1])])
      && p[..n] + [p[n], p[n + 1]] == p
  {
  }

  lemma {:induction false} FeedBoth(p: Parser, a: seq<string>, b: seq<string>, q: Parser, r: Parser)
    requires Consistent(p) && Feed(p, a) == Ok(q) && Feed(q, b) == Ok(r)
    ensures Feed(p, a + b) == Ok(r)
  {
    FeedAppend(p, a, b);
  }

  lemma {:induction false} FeedPairs(p: seq<Node>, orders: seq<seq<string>>)
    requires PairsOk(p) && OrdersOf(p, orders)
    ensures Feed(Start, PairTokens(p, orders)) == Ok(Parser(Begin, None, p, map[]))
  {
    if p != [] {
      var n := |p| - 2;
      FeedPairs(p[..n], orders[..n]);
      FeedPair(p[..n], p[n], p[n + 1], orders[n]);
      LastPairTokens(p, orders);
      FeedBoth(Start, PairTokens(p[..n], orders[..n]), NodeTokens(p[n], orders[n]) + [OpToken(p[n + 1])],
               Parser(Begin, None, p[..n], map[]), Parser(Begin, None, p, map[]));
    }
  }

  /** Parsing inverts rendering, in whatever order the assignments are written. */
  lemma {:induction false} ParseRender(p: seq<Node>, orders: seq<seq<string>>)
    requires Canonical(p) && OrdersOf(p, orders)
    ensures Parse(Render(p, orders)) == Ok(p)
  {
    var n := |p| - 1;
    FeedPairs(p[..n], orders[..n]);
    FeedAppend(Start, PairTokens(p[..n], orders[..n]), NodeTokens(p[n], orders[n]));
    if p[n].Chdir? {
      FeedChdir(p[..n], p[n], orders[n]);
    } else {
      FeedCommand(p[..n], p[n], orders[n]);
    }
    assert p[..n] + [p[n]] == p;
  }

  lemma {:induction false} SomeOrder(keys: set<string>) returns (order: seq<string>)
    ensures forall k :: k in order <==> k in keys
  {
    if keys == {} {
      order := [];
    } else {
      var k :| k in keys;
      var rest := SomeOrder(keys - {k});
      order := [k] + rest;
    }
  }

  lemma {:induction false} SomeOrders(p: seq<Node>) returns (orders: seq<seq<string>>)
    ensures OrdersOf(p, orders)
  {
    if p == [] {
      orders := [];
    } else {
      var n := |p| - 1;
      var init := SomeOrders(p[..n]);
      var last := SomeOrder(if p[n].Command? then p[n].env.Keys else {});
      orders := init + [last];
      forall i | 0 <= i < |p| ensures OrderOf(p[i], orders[i]) {
        assert i < n ==> p[i] == p[..n][i];
      }
    }
  }

  /** The canonical pipelines are exactly those that some token list parses to. */
  lemma {:induction false} CanonicalIffParsed(p: seq<Node>)
    ensures Canonical(p) <==> exists tokens :: Parse(tokens) == Ok(p)
  {
    if Canonical(p) {
      var orders := SomeOrders(p);
      ParseRender(p, orders);
    }
    if tokens :| Parse(tokens) == Ok(p) {
      ParsedCanonical(tokens);
    }
  }
}
