/**
  The language of the parser, without its states: a token list is parsed exactly if it can be
  written as commands and directory changes with operators between them, and the result says of
  each command what its own words and redirections say, in whatever order they stand.
 */
module ShellGrammar {
  import opened Wrappers
  import opened ShellParser
  import opened ShellSyntax

  // ---------------------------------------------------------------- assignments

  lemma {:induction false} MatchedParts(token: string)
    requires EnvMatch(token).Some?
    ensures var (k, v) := EnvMatch(token).value;
      IsKey(k) && IsValue(v) && (token == k + "=" + v || token == k + "=" + v + "\n")
  {
    var n := WordLength(token);
    var k, rest := token[..n], token[n + 1..];
    assert token == k + "=" + rest;
    if !IsValue(rest) {
      var v := rest[..|rest| - 1];
      assert rest == v + "\n";
      assert k + "=" + (v + "\n") == k + "=" + v + "\n";
    }
  }

  lemma {:induction false} MatchedBeforeNewline(k: string, v: string)
    requires IsKey(k) && IsValue(v)
    ensures EnvMatch(k + "=" + v + "\n") == Some((k, v))
  {
    var tail := v + "\n";
    var token := k + ("=" + tail);
    assert token == k + "=" + v + "\n";
    WordLengthOf(k, "=" + tail);
    assert token[..|k|] == k && token[|k|] == '=' && token[|k| + 1..] == tail;
    assert tail[|v|] == '\n' && tail[..|v|] == v;
    assert !IsValue(tail);
  }

  /** A token is an assignment of v to k exactly if it is k=v, perhaps with a newline behind. */
  lemma {:induction false} EnvMatchIff(token: string, k: string, v: string)
    ensures EnvMatch(token) == Some((k, v)) <==>
      IsKey(k) && IsValue(v) && (token == k + "=" + v || token == k + "=" + v + "\n")
  {
    if EnvMatch(token) == Some((k, v)) {
      MatchedParts(token);
    }
    if IsKey(k) && IsValue(v) {
      EnvMatchOf(k, v);
      MatchedBeforeNewline(k, v);
    }
  }

  /** What the assignments before a command come to. */
  function EnvOf(assigns: seq<string>): map<string, string> {
    if assigns == [] then map[] else
    var n := |assigns| - 1;
    match EnvMatch(assigns[n])
    case Some(kv) => EnvOf(assigns[..n])[kv.0 := kv.1]
    case None => EnvOf(assigns[..n])
  }

  ghost predicate Assigns(token: string, k: string) {
    EnvMatch(token).Some? && EnvMatch(token).value.0 == k
  }

  /** Assignment number i is the last one to k. */
  ghost predicate LastFor(assigns: seq<string>, i: int, k: string) {
    0 <= i < |assigns| && Assigns(assigns[i], k) && forall j :: i < j < |assigns| ==> !Assigns(assigns[j], k)
  }

  /** Of several assignments to one variable the last one counts. */
  lemma {:induction false} LastAssignmentCounts(assigns: seq<string>, k: string)
    ensures k in EnvOf(assigns) <==> exists i :: LastFor(assigns, i, k)
    ensures forall i :: LastFor(assigns, i, k) ==> EnvOf(assigns)[k] == EnvMatch(assigns[i]).value.1
  {
    if assigns != [] {
      var n := |assigns| - 1;
      var init := assigns[..n];
      LastAssignmentCounts(init, k);
      LastForPrefix(assigns, k);
      if Assigns(assigns[n], k) {
        assert LastFor(assigns, n, k);
      } else if i :| LastFor(init, i, k) {
        assert LastFor(assigns, i, k);
      } else {
        assert forall i :: LastFor(assigns, i, k) <==> LastFor(init, i, k);
      }
    }
  }

  lemma {:induction false} LastForPrefix(assigns: seq<string>, k: string)
    requires assigns != []
    ensures var n := |assigns| - 1;
      forall i :: LastFor(assigns, i, k) <==> if Assigns(assigns[n], k) then i == n else LastFor(assigns[..n], i, k)
  {
    var n := |assigns| - 1;
    forall i ensures LastFor(assigns, i, k) <==> if Assigns(assigns[n], k) then i == n else LastFor(assigns[..n], i, k) {
      if LastFor(assigns, i, k) && i < n {
        assert !Assigns(assigns[n], k);
        assert forall j :: i < j < n ==> assigns[..n][j] == assigns[j];
      }
      if LastFor(assigns[..n], i, k) {
        assert forall j :: i < j < n ==> assigns[..n][j] == assigns[j];
      }
    }
  }

  // ---------------------------------------------------------------- the pieces of a command

  datatype Piece = Word(word: string) | In(file: string) | Out(file: string) | Err(file: string) | ErrToOut

  function PieceTokens(x: Piece): seq<string> {
    match x
    case Word(word) => [word]
    case In(file) => ["<", file]
    case Out(file) => [">", file]
    case Err(file) => ["2>", file]
    case ErrToOut => ["2>&1"]
  }

  function PiecesTokens(pieces: seq<Piece>): seq<string> {
    if pieces == [] then [] else PiecesTokens(pieces[..|pieces| - 1]) + PieceTokens(pieces[|pieces| - 1])
  }

  /** Words may be anything but operators; the operand of a redirection may be anything. */
  ghost predicate PiecesOk(pieces: seq<Piece>) {
    forall i :: 0 <= i < |pieces| && pieces[i].Word? ==> !IsOperator(pieces[i].word)
  }

  function WordsOf(pieces: seq<Piece>): seq<string> {
    if pieces == [] then [] else
    var last := pieces[|pieces| - 1];
    WordsOf(pieces[..|pieces| - 1]) + (if last.Word? then [last.word] else [])
  }

  function StdinOf(pieces: seq<Piece>): Option<string> {
    if pieces == [] then None else
    var last := pieces[|pieces| - 1];
    if last.In? then Some(last.file) else StdinOf(pieces[..|pieces| - 1])
  }

  function StdoutOf(pieces: seq<Piece>): Redirect {
    if pieces == [] then Inherited else
    var last := pieces[|pieces| - 1];
    if last.Out? then ToFile(last.file) else StdoutOf(pieces[..|pieces| - 1])
  }

  function StderrOf(pieces: seq<Piece>): Redirect {
    if pieces == [] then Inherited else
    var last := pieces[|pieces| - 1];
    if last.Err? then ToFile(last.file) else if last.ErrToOut? then ToStdout else StderrOf(pieces[..|pieces| - 1])
  }

  /** Whether the first of two pieces redirects the same stream as the second. */
  predicate Compete(a: Piece, b: Piece) {
    (a.In? && b.In?) || (a.Out? && b.Out?) || ((a.Err? || a.ErrToOut?) && (b.Err? || b.ErrToOut?))
  }

  /** No stream is redirected twice. */
  ghost predicate EachOnce(pieces: seq<Piece>) {
    forall i, j :: 0 <= i < j < |pieces| ==> !Compete(pieces[i], pieces[j])
  }

  /** A stream goes where its redirection says, and is left alone if there is none. */
  lemma {:induction false} StreamsOf(pieces: seq<Piece>)
    requires EachOnce(pieces)
    ensures forall f :: StdinOf(pieces) == Some(f) <==> In(f) in pieces
    ensures forall f :: StdoutOf(pieces) == ToFile(f) <==> Out(f) in pieces
    ensures forall f :: StderrOf(pieces) == ToFile(f) <==> Err(f) in pieces
    ensures StderrOf(pieces) == ToStdout <==> ErrToOut in pieces
    ensures StdoutOf(pieces) == Inherited || StdoutOf(pieces).ToFile?
    ensures StderrOf(pieces) == Inherited || StderrOf(pieces).ToFile? || StderrOf(pieces) == ToStdout
  {
    if pieces != [] {
      var n := |pieces| - 1;
      var init, last := pieces[..n], pieces[n];
      StreamsOf(init);
      assert pieces == init + [last];
      assert forall x :: x in init ==> !Compete(x, last);
    }
  }

  /** The node of a command, before a pipe operator is seen. */
  function NodeOf(assigns: seq<string>, name: string, pieces: seq<Piece>): Node {
    Command(name, [name] + WordsOf(pieces), StdinOf(pieces), StdoutOf(pieces), StderrOf(pieces), EnvOf(assigns))
  }

  function Building(acc: seq<Node>, n: Node): Parser {
    Parser(InCommand, Some(n), acc, map[])
  }

  lemma {:induction false} EachOnceLast(pieces: seq<Piece>)
    requires pieces != []
    ensures var init, last := pieces[..|pieces| - 1], pieces[|pieces| - 1];
      EachOnce(pieces) <==>
        && EachOnce(init) && (last.In? ==> StdinOf(init) == None) && (last.Out? ==> StdoutOf(init) == Inherited)
        && (last.Err? || last.ErrToOut? ==> StderrOf(init) == Inherited)
  {
    var n := |pieces| - 1;
    var init, last := pieces[..n], pieces[n];
    if EachOnce(pieces) {
      assert forall x :: x in init ==> !Compete(x, last);
      assert EachOnce(init);
      StreamsOf(init);
    }
    if EachOnce(init) {
      StreamsOf(init);
      if !EachOnce(pieces) {
        var i, j :| 0 <= i < j < |pieces| && Compete(pieces[i], pieces[j]);
        assert j == n && pieces[i] in init;
      }
    }
  }

  lemma {:induction false} FeedPiece(acc: seq<Node>, cmd: Node, x: Piece)
    requires cmd.Command? && (x.Word? ==> !IsOperator(x.word))
    ensures Feed(Building(acc, cmd), PieceTokens(x)) ==
      match x
      case Word(w) => Ok(Building(acc, cmd.(argv := cmd.argv + [w])))
      case In(f) => if cmd.stdin == None then Ok(Building(acc, cmd.(stdin := Some(f)))) else AssertionFailed
      case Out(f) => if cmd.stdout == Inherited then Ok(Building(acc, cmd.(stdout := ToFile(f)))) else AssertionFailed
      case Err(f) => if cmd.stderr == Inherited then Ok(Building(acc, cmd.(stderr := ToFile(f)))) else AssertionFailed
      case ErrToOut => if cmd.stderr == Inherited then Ok(Building(acc, cmd.(stderr := ToStdout))) else AssertionFailed
  {
    var p := Building(acc, cmd);
    match x {
      case Word(w) => FeedOne(p, w);
      case In(f) => FeedRedirect(p, "<", f);
      case Out(f) => FeedRedirect(p, ">", f);
      case Err(f) => FeedRedirect(p, "2>", f);
      case ErrToOut => FeedOne(p, "2>&1");
    }
  }

  /**
    The words and redirections of a command, in any order: they are read exactly if no stream is
    redirected twice, and then each stream goes where its own redirection says.
   */
  lemma {:induction false} FeedPieces(acc: seq<Node>, assigns: seq<string>, name: string, pieces: seq<Piece>)
    requires PiecesOk(pieces)
    ensures Feed(Building(acc, NewCommand(name, EnvOf(assigns))), PiecesTokens(pieces)) ==
      if EachOnce(pieces) then Ok(Building(acc, NodeOf(assigns, name, pieces))) else AssertionFailed
  {
    var start := Building(acc, NewCommand(name, EnvOf(assigns)));
    if pieces == [] {
      assert [name] + [] == [name];
    } else {
      var n := |pieces| - 1;
      var init, last := pieces[..n], pieces[n];
      FeedPieces(acc, assigns, name, init);
      FeedAppend(start, PiecesTokens(init), PieceTokens(last));
      EachOnceLast(pieces);
      if EachOnce(init) {
        FeedPiece(acc, NodeOf(assigns, name, init), last);
        assert WordsOf(init) + [] == WordsOf(init);
        if last.Word? {
          assert [name] + WordsOf(init) + [last.word] == [name] + (WordsOf(init) + [last.word]);
        }
      }
    }
  }

  // ---------------------------------------------------------------- whole token lists

  /** A command or a directory change, as it is written. */
  datatype Element = Cmd(assigns: seq<string>, name: string, pieces: seq<Piece>) | Cd(dir: Option<string>)

  function ElementTokens(x: Element): seq<string> {
    match x
    case Cmd(assigns, name, pieces) => assigns + [name] + PiecesTokens(pieces)
    case Cd(dir) => if dir.Some? then ["cd", dir.value] else ["cd"]
  }

  ghost predicate AssignsOk(assigns: seq<string>) {
    forall i :: 0 <= i < |assigns| ==> EnvMatch(assigns[i]).Some?
  }

  ghost predicate ElementOk(x: Element) {
    match x
    case Cmd(assigns, name, pieces) => AssignsOk(assigns) && EnvMatch(name) == None && name != "cd" && PiecesOk(pieces)
    case Cd(dir) => dir != Some("&&")
  }

  /** An element and the operator behind it; behind a cd it is &&. */
  ghost predicate JointOk(x: Element, op: Node) {
    ElementOk(x) && if x.Cmd? then op.Pipe? || op.And? || op.Or? else op.And?
  }

  /** Elements with the operators behind them, a last element, and perhaps a redirection without its operand. */
  datatype Text = Text(joints: seq<(Element, Node)>, last: Element, dangling: seq<string>)

  function JointsTokens(joints: seq<(Element, Node)>): seq<string> {
    if joints == [] then [] else
    var (x, op) := joints[|joints| - 1];
    JointsTokens(joints[..|joints| - 1]) + (ElementTokens(x) + [OpToken(op)])
  }

  function TextTokens(t: Text): seq<string> {
    JointsTokens(t.joints) + ElementTokens(t.last) + t.dangling
  }

  ghost predicate JointsOk(joints: seq<(Element, Node)>) {
    joints != [] ==> JointOk(joints[|joints| - 1].0, joints[|joints| - 1].1) && JointsOk(joints[..|joints| - 1])
  }

  ghost predicate Grammatical(t: Text) {
    && JointsOk(t.joints) && ElementOk(t.last)
    && (t.dangling == [] || (t.last.Cmd? && t.dangling in [["<"], [">"], ["2>"]]))
  }

  /** No stream of the command is redirected twice, a pipe behind it being one redirection of its output. */
  ghost predicate StreamsOk(x: Element, piped: bool) {
    x.Cmd? ==> EachOnce(x.pieces) && (piped ==> forall f :: Out(f) !in x.pieces)
  }

  ghost predicate JointsStreamsOk(joints: seq<(Element, Node)>) {
    joints != [] ==>
      StreamsOk(joints[|joints| - 1].0, joints[|joints| - 1].1.Pipe?) && JointsStreamsOk(joints[..|joints| - 1])
  }

  ghost predicate TextStreamsOk(t: Text) {
    JointsStreamsOk(t.joints) && StreamsOk(t.last, false)
  }

  function ElementNode(x: Element, piped: bool): Node {
    match x
    case Cmd(assigns, name, pieces) =>
      if piped then NodeOf(assigns, name, pieces).(stdout := ToPipe) else NodeOf(assigns, name, pieces)
    case Cd(dir) => Chdir(dir)
  }

  function JointsNodes(joints: seq<(Element, Node)>): seq<Node> {
    if joints == [] then [] else
    var (x, op) := joints[|joints| - 1];
    JointsNodes(joints[..|joints| - 1]) + [ElementNode(x, op.Pipe?), op]
  }

  function TextNodes(t: Text): seq<Node> {
    JointsNodes(t.joints) + [ElementNode(t.last, false)]
  }

  // ---------------------------------------------------------------- what is written so is parsed so

  lemma {:induction false} FeedAssigns(acc: seq<Node>, assigns: seq<string>)
    requires AssignsOk(assigns)
    ensures Feed(Parser(Begin, None, acc, map[]), assigns) == Ok(Parser(Begin, None, acc, EnvOf(assigns)))
  {
    if assigns != [] {
      var n := |assigns| - 1;
      FeedAssigns(acc, assigns[..n]);
      assert assigns == assigns[..n] + [assigns[n]];
      FeedAppend(Parser(Begin, None, acc, map[]), assigns[..n], [assigns[n]]);
      FeedOne(Parser(Begin, None, acc, EnvOf(assigns[..n])), assigns[n]);
    }
  }

  /** An element before its operator. */
  function Open(acc: seq<Node>, x: Element): Parser {
    match x
    case Cmd(assigns, name, pieces) => Building(acc, NodeOf(assigns, name, pieces))
    case Cd(dir) => Parser(InChdir, Some(Chdir(dir)), acc, map[])
  }

  lemma {:induction false} FeedElement(acc: seq<Node>, x: Element)
    requires ElementOk(x)
    ensures Feed(Parser(Begin, None, acc, map[]), ElementTokens(x)) ==
      if StreamsOk(x, false) then Ok(Open(acc, x)) else AssertionFailed
  {
    var p0 := Parser(Begin, None, acc, map[]);
    match x {
      case Cd(dir) => FeedChdir(acc, Chdir(dir), []);
      case Cmd(assigns, name, pieces) =>
        FeedAssigns(acc, assigns);
        var p1 := Parser(Begin, None, acc, EnvOf(assigns));
        FeedOne(p1, name);
        FeedBoth(p0, assigns, [name], p1, Building(acc, NewCommand(name, EnvOf(assigns))));
        FeedAppend(p0, assigns + [name], PiecesTokens(pieces));
        FeedPieces(acc, assigns, name, pieces);
    }
  }

  lemma {:induction false} FeedJoint(acc: seq<Node>, x: Element, op: Node)
    requires JointOk(x, op)
    ensures Feed(Parser(Begin, None, acc, map[]), ElementTokens(x) + [OpToken(op)]) ==
      if StreamsOk(x, op.Pipe?) then Ok(Parser(Begin, None, acc + [ElementNode(x, op.Pipe?), op], map[])) else AssertionFailed
  {
    var p0 := Parser(Begin, None, acc, map[]);
    FeedElement(acc, x);
    FeedAppend(p0, ElementTokens(x), [OpToken(op)]);
    if StreamsOk(x, false) {
      FeedOne(Open(acc, x), OpToken(op));
      if x.Cmd? {
        StreamsOf(x.pieces);
      }
    }
  }

  lemma {:induction false} FeedJoints(joints: seq<(Element, Node)>)
    requires JointsOk(joints)
    ensures Feed(Start, JointsTokens(joints)) ==
      if JointsStreamsOk(joints) then Ok(Parser(Begin, None, JointsNodes(joints), map[])) else AssertionFailed
  {
    if joints != [] {
      var n := |joints| - 1;
      var (x, op) := joints[n];
      FeedJoints(joints[..n]);
      FeedAppend(Start, JointsTokens(joints[..n]), ElementTokens(x) + [OpToken(op)]);
      FeedJoint(JointsNodes(joints[..n]), x, op);
    }
  }

  lemma {:induction false} FeedDangling(acc: seq<Node>, x: Element, dangling: seq<string>)
    requires dangling == [] || (x.Cmd? && dangling in [["<"], [">"], ["2>"]])
    ensures Feed(Open(acc, x), dangling).Ok?
    ensures var q := Feed(Open(acc, x), dangling).value; q.current == Open(acc, x).current && q.pipeline == acc
  {
    if dangling != [] {
      FeedOne(Open(acc, x), dangling[0]);
      assert dangling == [dangling[0]];
    }
  }

  /** A text is parsed exactly if no stream in it is redirected twice, and gives its nodes. */
  lemma {:induction false} ParseText(t: Text)
    requires Grammatical(t)
    ensures Parse(TextTokens(t)) == if TextStreamsOk(t) then Ok(TextNodes(t)) else AssertionFailed
  {
    var a, b := JointsTokens(t.joints), ElementTokens(t.last);
    FeedJoints(t.joints);
    FeedAppend(Start, a, b);
    FeedAppend(Start, a + b, t.dangling);
    if JointsStreamsOk(t.joints) {
      FeedElement(JointsNodes(t.joints), t.last);
      if StreamsOk(t.last, false) {
        FeedDangling(JointsNodes(t.joints), t.last, t.dangling);
      }
    }
  }

  // ---------------------------------------------------------------- whatever is parsed is written so

  /** A token list read so far: complete joints, and what is under way. */
  datatype Draft =
    | Assigning(joints: seq<(Element, Node)>, assigns: seq<string>)
    | Writing(joints: seq<(Element, Node)>, x: Element)
    | Redirecting(joints: seq<(Element, Node)>, x: Element, op: string)

  function DraftTokens(d: Draft): seq<string> {
    JointsTokens(d.joints) +
    match d
    case Assigning(_, assigns) => assigns
    case Writing(_, x) => ElementTokens(x)
    case Redirecting(_, x, op) => ElementTokens(x) + [op]
  }

  /** The draft is grammatical, and the parser is in the mode it calls for. */
  ghost predicate DraftFits(d: Draft, q: Parser) {
    && JointsOk(d.joints)
    && match d
       case Assigning(_, assigns) => q.mode == Begin && AssignsOk(assigns) && (q.env == map[] ==> assigns == [])
       case Writing(_, x) =>
         ElementOk(x) && if x.Cmd? then q.mode == InCommand else q.mode == InChdir && q.current == Some(Chdir(x.dir))
       case Redirecting(_, x, op) =>
         && ElementOk(x) && x.Cmd?
         && match q.mode
            case WantStdin => op == "<"
            case WantStdout => op == ">"
            case WantStderr => op == "2>"
            case _ => false
  }

  lemma {:induction false} WriteOn(joints: seq<(Element, Node)>, x: Element, more: Piece)
    requires ElementOk(x) && x.Cmd? && (more.Word? ==> !IsOperator(more.word))
    ensures var y := x.(pieces := x.pieces + [more]);
      ElementOk(y) && DraftTokens(Writing(joints, y)) == DraftTokens(Writing(joints, x)) + PieceTokens(more)
  {
    var pieces := x.pieces + [more];
    assert pieces[..|pieces| - 1] == x.pieces;
    Assoc4(JointsTokens(joints), x.assigns + [x.name], PiecesTokens(x.pieces), PieceTokens(more));
  }

  lemma {:induction false} Assoc4<T>(a: seq<T>, b: seq<T>, c: seq<T>, d: seq<T>)
    ensures a + (b + (c + d)) == a + (b + c) + d
  {
  }

  lemma {:induction false} CloseJoint(joints: seq<(Element, Node)>, x: Element, op: Node)
    requires JointsOk(joints) && JointOk(x, op)
    ensures var more := joints + [(x, op)];
      JointsOk(more) && DraftTokens(Assigning(more, [])) == DraftTokens(Writing(joints, x)) + [OpToken(op)]
  {
    var more := joints + [(x, op)];
    assert more[..|joints|] == joints;
  }

  lemma {:induction false} DraftAtBegin(d: Draft, q: Parser, token: string) returns (e: Draft)
    requires Consistent(q) && d.Assigning? && DraftFits(d, q) && Step(q, token).Ok?
    ensures DraftFits(e, Step(q, token).value) && DraftTokens(e) == DraftTokens(d) + [token]
  {
    match EnvMatch(token)
    case Some(kv) =>
      e := Assigning(d.joints, d.assigns + [token]);
      assert kv.0 in q.env[kv.0 := kv.1];
    case None =>
      if token == "cd" {
        e := Writing(d.joints, Cd(None));
      } else {
        e := Writing(d.joints, Cmd(d.assigns, token, []));
      }
  }

  lemma {:induction false} DraftConnector(d: Draft, q: Parser, token: string) returns (e: Draft)
    requires Consistent(q) && d.Writing? && d.x.Cmd? && DraftFits(d, q) && Step(q, token).Ok?
    requires token == "|" || token == "&&" || token == "||"
    ensures DraftFits(e, Step(q, token).value) && DraftTokens(e) == DraftTokens(d) + [token]
  {
    var op := if token == "|" then Pipe else if token == "&&" then And else Or;
    CloseJoint(d.joints, d.x, op);
    e := Assigning(d.joints + [(d.x, op)], []);
  }

  lemma {:induction false} DraftRedirection(d: Draft, q: Parser, token: string) returns (e: Draft)
    requires Consistent(q) && d.Writing? && d.x.Cmd? && DraftFits(d, q) && Step(q, token).Ok?
    requires token == ">" || token == "2>" || token == "<" || token == "2>&1"
    ensures DraftFits(e, Step(q, token).value) && DraftTokens(e) == DraftTokens(d) + [token]
  {
    if token == "2>&1" {
      WriteOn(d.joints, d.x, ErrToOut);
      e := Writing(d.joints, d.x.(pieces := d.x.pieces + [ErrToOut]));
    } else {
      e := Redirecting(d.joints, d.x, token);
    }
  }

  lemma {:induction false} DraftInCommand(d: Draft, q: Parser, token: string) returns (e: Draft)
    requires Consistent(q) && d.Writing? && d.x.Cmd? && DraftFits(d, q) && Step(q, token).Ok?
    ensures DraftFits(e, Step(q, token).value) && DraftTokens(e) == DraftTokens(d) + [token]
  {
    if token == "|" || token == "&&" || token == "||" {
      e := DraftConnector(d, q, token);
    } else if IsOperator(token) {
      e := DraftRedirection(d, q, token);
    } else {
      WriteOn(d.joints, d.x, Word(token));
      e := Writing(d.joints, d.x.(pieces := d.x.pieces + [Word(token)]));
    }
  }

  lemma {:induction false} DraftInChdir(d: Draft, q: Parser, token: string) returns (e: Draft)
    requires Consistent(q) && d.Writing? && d.x.Cd? && DraftFits(d, q) && Step(q, token).Ok?
    ensures DraftFits(e, Step(q, token).value) && DraftTokens(e) == DraftTokens(d) + [token]
  {
    if token == "&&" {
      CloseJoint(d.joints, d.x, And);
      e := Assigning(d.joints + [(d.x, And)], []);
    } else {
      e := Writing(d.joints, Cd(Some(token)));
      assert ["cd"] + [token] == ["cd", token];
    }
  }

  lemma {:induction false} DraftRedirecting(d: Draft, q: Parser, token: string) returns (e: Draft)
    requires Consistent(q) && d.Redirecting? && DraftFits(d, q) && Step(q, token).Ok?
    ensures DraftFits(e, Step(q, token).value) && DraftTokens(e) == DraftTokens(d) + [token]
  {
    var piece := if d.op == "<" then In(token) else if d.op == ">" then Out(token) else Err(token);
    WriteOn(d.joints, d.x, piece);
    e := Writing(d.joints, d.x.(pieces := d.x.pieces + [piece]));
    assert PieceTokens(piece) == [d.op] + [token];
  }

  lemma {:induction false} DraftOf(tokens: seq<string>) returns (d: Draft)
    requires Feed(Start, tokens).Ok?
    ensures DraftTokens(d) == tokens && DraftFits(d, Feed(Start, tokens).value)
  {
    if tokens == [] {
      d := Assigning([], []);
    } else {
      var n := |tokens| - 1;
      var token := tokens[n];
      assert tokens == tokens[..n] + [token];
      FeedAppend(Start, tokens[..n], [token]);
      var before := DraftOf(tokens[..n]);
      var q := Feed(Start, tokens[..n]).value;
      FeedOne(q, token);
      if before.Assigning? {
        d := DraftAtBegin(before, q, token);
      } else if before.Redirecting? {
        d := DraftRedirecting(before, q, token);
      } else if before.x.Cmd? {
        d := DraftInCommand(before, q, token);
      } else {
        d := DraftInChdir(before, q, token);
      }
    }
  }

  lemma {:induction false} ParsedIsText(tokens: seq<string>) returns (t: Text)
    requires Parse(tokens).Ok?
    ensures Grammatical(t) && TextTokens(t) == tokens
  {
    var d := DraftOf(tokens);
    match d
    case Writing(joints, x) => t := Text(joints, x, []);
    case Redirecting(joints, x, op) => t := Text(joints, x, [op]);
  }

  ghost predicate Reads(t: Text, tokens: seq<string>, p: seq<Node>) {
    Grammatical(t) && TextTokens(t) == tokens && TextStreamsOk(t) && TextNodes(t) == p
  }

  /**
    The parser returns p exactly if the tokens are a text in which no stream is redirected twice
    and whose nodes are p; on all other token lists an assertion fails.
   */
  lemma {:induction false} ParseIff(tokens: seq<string>, p: seq<Node>)
    ensures Parse(tokens) == Ok(p) <==> exists t :: Reads(t, tokens, p)
  {
    if Parse(tokens) == Ok(p) {
      var t := ParsedIsText(tokens);
      ParseText(t);
      assert Reads(t, tokens, p);
    }
    if t :| Reads(t, tokens, p) {
      ParseText(t);
    }
  }

  /** In particular a command that redirects a stream twice, anywhere in a text, is refused. */
  lemma {:induction false} RedirectedTwiceFails(t: Text, i: nat)
    requires Grammatical(t) && i < |t.joints| && !StreamsOk(t.joints[i].0, t.joints[i].1.Pipe?)
    ensures Parse(TextTokens(t)) == AssertionFailed
  {
    JointFails(t.joints, i);
    ParseText(t);
  }

  lemma {:induction false} JointFails(joints: seq<(Element, Node)>, i: nat)
    requires i < |joints| && !StreamsOk(joints[i].0, joints[i].1.Pipe?)
    ensures !JointsStreamsOk(joints)
  {
    if i < |joints| - 1 { JointFails(joints[..|joints| - 1], i); }
  }
}
