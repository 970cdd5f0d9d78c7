/**
  What running a pipeline means: right-nested short-circuit evaluation over process groups,
  when the nesting matters, when a run can fail, and how its processes are wired together.
 */
module ShellLaws {
  import opened Wrappers
  import opened ShellParser
  import opened ShellSyntax
  import opened ShellRunner

  /** A command with the directory accumulated before it. */
  datatype Placed = Placed(cmd: Node, cwd: string)

  type Group = seq<Placed>

  /** An AND-OR list: groups separated by && and ||. */
  datatype AndOr = AndOr(groups: seq<Group>, ops: seq<Node>)

  datatype Tree = Leaf(group: Group) | Branch(op: Node, left: Tree, right: Tree)

  ghost predicate GroupOk(g: Group) {
    g != [] && forall i :: 0 <= i < |g| ==> g[i].cmd.Command?
  }

  ghost predicate ListOk(groups: seq<Group>, ops: seq<Node>) {
    && |groups| == |ops| + 1
    && (forall i :: 0 <= i < |groups| ==> GroupOk(groups[i]))
    && (forall i :: 0 <= i < |ops| ==> ops[i].And? || ops[i].Or?)
  }

  ghost predicate TreeOk(t: Tree) {
    match t
    case Leaf(g) => GroupOk(g)
    case Branch(op, l, r) => (op.And? || op.Or?) && TreeOk(l) && TreeOk(r)
  }

  /** No directory change is last, and each says where to. */
  ghost predicate NoBadCd(p: seq<Node>) {
    forall i :: 0 <= i < |p| && p[i].Chdir? ==> i < |p| - 1 && p[i].dir.Some?
  }

  // ---------------------------------------------------------------- meaning

  /** The processes of a group; all but the first read from their predecessor. */
  ghost function LaunchGroup(g: Group, k: nat, piped: bool): seq<Launch>
    requires (piped ==> k > 0) && forall i :: 0 <= i < |g| ==> g[i].cmd.Command?
  {
    if g == [] then [] else [LaunchOf(g[0].cmd, g[0].cwd, k, piped)] + LaunchGroup(g[1..], k + 1, true)
  }

  /** A group's status is that of its last command; && goes on after status 0, || after any other. */
  ghost function Eval(t: Tree, k: nat, codes: seq<int>): (r: (int, seq<Launch>))
    requires TreeOk(t)
    decreases t
  {
    match t
    case Leaf(g) => (CodeAt(codes, k + |g| - 1), LaunchGroup(g, k, false))
    case Branch(op, l, r) =>
      var first := Eval(l, k, codes);
      Then(op, first, Eval(r, k + |first.1|, codes))
  }

  /** Going on to the second result unless the first one short-circuits. */
  ghost function Then(op: Node, a: (int, seq<Launch>), b: (int, seq<Launch>)): (int, seq<Launch>) {
    if op.And? <==> a.0 != 0 then a else (b.0, a.1 + b.1)
  }

  ghost function RightNest(groups: seq<Group>, ops: seq<Node>): Tree
    requires ListOk(groups, ops)
    decreases groups
  {
    if |groups| == 1 then Leaf(groups[0]) else Branch(ops[0], Leaf(groups[0]), RightNest(groups[1..], ops[1..]))
  }

  ghost function LeftNest(groups: seq<Group>, ops: seq<Node>): Tree
    requires ListOk(groups, ops)
    decreases groups
  {
    var n := |ops|;
    if n == 0 then Leaf(groups[0]) else Branch(ops[n - 1], LeftNest(groups[..n], ops[..n - 1]), Leaf(groups[n]))
  }

  /** The groups of a pipeline, each command with its directory, and the operators between them. */
  ghost function Split(p: seq<Node>, cwd: string): AndOr
    requires Rest(p) && NoBadCd(p)
    decreases p
  {
    if p[0].Chdir? then Split(p[2..], PathJoin(cwd, p[0].dir.value))
    else if |p| == 1 then AndOr([[Placed(p[0], cwd)]], [])
    else
      var more := Split(p[2..], cwd);
      if p[1].Pipe? && more.groups != [] then
        AndOr([[Placed(p[0], cwd)] + more.groups[0]] + more.groups[1..], more.ops)
      else AndOr([[Placed(p[0], cwd)]] + more.groups, [p[1]] + more.ops)
  }

  lemma {:induction false} SplitOk(p: seq<Node>, cwd: string)
    requires Rest(p) && NoBadCd(p)
    ensures ListOk(Split(p, cwd).groups, Split(p, cwd).ops)
    decreases p
  {
    if p[0].Chdir? {
      SplitOk(p[2..], PathJoin(cwd, p[0].dir.value));
    } else if |p| > 1 {
      SplitOk(p[2..], cwd);
    }
  }

  lemma {:induction false} LaunchGroupSize(g: Group, k: nat, piped: bool)
    requires (piped ==> k > 0) && forall i :: 0 <= i < |g| ==> g[i].cmd.Command?
    ensures |LaunchGroup(g, k, piped)| == |g|
    decreases g
  {
    if g != [] { LaunchGroupSize(g[1..], k + 1, true); }
  }

  lemma {:induction false} RightNestOk(groups: seq<Group>, ops: seq<Node>)
    requires ListOk(groups, ops)
    ensures TreeOk(RightNest(groups, ops))
    decreases groups
  {
    if |groups| > 1 { RightNestOk(groups[1..], ops[1..]); }
  }

  lemma {:induction false} LeftNestOk(groups: seq<Group>, ops: seq<Node>)
    requires ListOk(groups, ops)
    ensures TreeOk(LeftNest(groups, ops))
    decreases groups
  {
    var n := |ops|;
    if n > 0 { LeftNestOk(groups[..n], ops[..n - 1]); }
  }

  // ---------------------------------------------------------------- run is right-nested evaluation

  /** Right-nested evaluation when the first group may already be under way. */
  ghost function EvalRight(groups: seq<Group>, ops: seq<Node>, k: nat, piped: bool, codes: seq<int>): (int, seq<Launch>)
    requires ListOk(groups, ops) && (piped ==> k > 0)
    decreases groups
  {
    var n := |groups[0]|;
    var first := (CodeAt(codes, k + n - 1), LaunchGroup(groups[0], k, piped));
    if |groups| == 1 then first
    else Then(ops[0], first, EvalRight(groups[1..], ops[1..], k + n, false, codes))
  }

  lemma {:induction false} EvalRightNest(groups: seq<Group>, ops: seq<Node>, k: nat, codes: seq<int>)
    requires ListOk(groups, ops)
    ensures TreeOk(RightNest(groups, ops))
    ensures Eval(RightNest(groups, ops), k, codes) == EvalRight(groups, ops, k, false, codes)
    decreases groups
  {
    RightNestOk(groups, ops);
    LaunchGroupSize(groups[0], k, false);
    if |groups| > 1 {
      EvalRightNest(groups[1..], ops[1..], k + |groups[0]|, codes);
    }
  }

  lemma {:induction false} LaunchCons(x: Placed, g: Group, k: nat, piped: bool)
    requires x.cmd.Command? && (piped ==> k > 0) && forall i :: 0 <= i < |g| ==> g[i].cmd.Command?
    ensures LaunchGroup([x] + g, k, piped) == [LaunchOf(x.cmd, x.cwd, k, piped)] + LaunchGroup(g, k + 1, true)
  {
    assert ([x] + g)[1..] == g;
  }

  /** One more launch in front of the first result does not change what follows it. */
  lemma {:induction false} ThenAfter(l: Launch, op: Node, a: (int, seq<Launch>), b: (int, seq<Launch>))
    ensures Then(op, (a.0, [l] + a.1), b) == (Then(op, a, b).0, [l] + Then(op, a, b).1)
  {
    assert [l] + a.1 + b.1 == [l] + (a.1 + b.1);
  }

  lemma {:induction false} PipeOne(x: Placed, groups: seq<Group>, ops: seq<Node>, k: nat, piped: bool, codes: seq<int>)
    requires ListOk(groups, ops) && x.cmd.Command? && (piped ==> k > 0)
    ensures var longer := [[x] + groups[0]] + groups[1..];
      ListOk(longer, ops) &&
      var r := EvalRight(groups, ops, k + 1, true, codes);
      EvalRight(longer, ops, k, piped, codes) == (r.0, [LaunchOf(x.cmd, x.cwd, k, piped)] + r.1)
  {
    var g, longer := [x] + groups[0], [[x] + groups[0]] + groups[1..];
    var n := |groups[0]|;
    assert longer[1..] == groups[1..] && |g| == n + 1;
    LaunchCons(x, groups[0], k, piped);
    if |groups| > 1 {
      var more := EvalRight(groups[1..], ops[1..], k + 1 + n, false, codes);
      ThenAfter(LaunchOf(x.cmd, x.cwd, k, piped), ops[0],
                (CodeAt(codes, k + n), LaunchGroup(groups[0], k + 1, true)), more);
    }
  }

  lemma {:induction false} OpOne(x: Placed, op: Node, groups: seq<Group>, ops: seq<Node>, k: nat, piped: bool, codes: seq<int>)
    requires ListOk(groups, ops) && x.cmd.Command? && (op.And? || op.Or?) && (piped ==> k > 0)
    ensures ListOk([[x]] + groups, [op] + ops)
    ensures EvalRight([[x]] + groups, [op] + ops, k, piped, codes)
         == Then(op, (CodeAt(codes, k), [LaunchOf(x.cmd, x.cwd, k, piped)]),
                 EvalRight(groups, ops, k + 1, false, codes))
  {
    var gs, os := [[x]] + groups, [op] + ops;
    assert gs[1..] == groups && os[1..] == ops;
    LaunchCons(x, [], k, piped);
    assert [x] + [] == [x] && gs[0] == [x];
    assert LaunchGroup([x], k, piped) == [LaunchOf(x.cmd, x.cwd, k, piped)];
  }

  /** The specification of run, one command at a time, in the same terms. */
  lemma {:induction false} RunOne(p: seq<Node>, cwd: string, k: nat, piped: bool, codes: seq<int>)
    requires Rest(p) && p[0].Command? && |p| > 1 && (piped ==> k > 0)
    requires RunSpec(p[2..], cwd, k + 1, p[1].Pipe?, codes).Returned?
    ensures var more := RunSpec(p[2..], cwd, k + 1, p[1].Pipe?, codes);
      var l := LaunchOf(p[0], cwd, k, piped);
      var r := if p[1].Pipe? then (more.status, [l] + more.launches)
               else Then(p[1], (CodeAt(codes, k), [l]), (more.status, more.launches));
      RunSpec(p, cwd, k, piped, codes) == Returned(r.0, r.1)
  {
  }

  lemma {:induction false} RunIsEvalRight(p: seq<Node>, cwd: string, k: nat, piped: bool, codes: seq<int>)
    requires Rest(p) && NoBadCd(p) && (piped ==> k > 0)
    ensures ListOk(Split(p, cwd).groups, Split(p, cwd).ops)
    ensures var r := EvalRight(Split(p, cwd).groups, Split(p, cwd).ops, k, piped, codes);
      RunSpec(p, cwd, k, piped, codes) == Returned(r.0, r.1)
    decreases p
  {
    SplitOk(p, cwd);
    if p[0].Chdir? {
      RunIsEvalRight(p[2..], PathJoin(cwd, p[0].dir.value), k, piped, codes);
    } else if |p| > 1 {
      var more := Split(p[2..], cwd);
      RunIsEvalRight(p[2..], cwd, k + 1, p[1].Pipe?, codes);
      RunOne(p, cwd, k, piped, codes);
      if p[1].Pipe? {
        PipeOne(Placed(p[0], cwd), more.groups, more.ops, k, piped, codes);
      } else {
        OpOne(Placed(p[0], cwd), p[1], more.groups, more.ops, k, piped, codes);
      }
    } else {
      LaunchCons(Placed(p[0], cwd), [], k, piped);
      assert [Placed(p[0], cwd)] + [] == [Placed(p[0], cwd)];
    }
  }

  /**
    A run returns the status, and launches the processes, of right-nested short-circuit
    evaluation over the groups of the pipeline, each command in the directory accumulated before it.
   */
  lemma {:induction false} RunIsRightNested(p: seq<Node>, k: nat, codes: seq<int>)
    requires Canonical(p) && NoBadCd(p)
    ensures Rest(p)
    ensures var s := Split(p, ".");
      ListOk(s.groups, s.ops) && TreeOk(RightNest(s.groups, s.ops)) &&
      var (status, ls) := Eval(RightNest(s.groups, s.ops), k, codes);
      RunOf(p, k, codes) == Returned(status, ls)
  {
    CanonicalRest(p);
    RunIsEvalRight(p, ".", k, false, codes);
    var s := Split(p, ".");
    EvalRightNest(s.groups, s.ops, k, codes);
  }

  // ---------------------------------------------------------------- when the nesting matters

  ghost predicate Uniform(ops: seq<Node>) {
    forall i, j :: 0 <= i < |ops| && 0 <= j < |ops| ==> ops[i] == ops[j]
  }

  /** If the third result is the same wherever the first does not stop, the nesting of two equal steps does not matter. */
  lemma {:induction false} ThenAssociates(op: Node, a: (int, seq<Launch>), b: (int, seq<Launch>),
                                          c: (int, seq<Launch>), d: (int, seq<Launch>))
    requires (op.And? <==> a.0 != 0) || c == d
    ensures Then(op, Then(op, a, b), c) == Then(op, a, Then(op, b, d))
  {
    assert a.1 + b.1 + c.1 == a.1 + (b.1 + c.1);
  }

  lemma {:induction false} EvalBranch(op: Node, l: Tree, r: Tree, k: nat, codes: seq<int>)
    requires (op.And? || op.Or?) && TreeOk(l) && TreeOk(r)
    ensures TreeOk(Branch(op, l, r))
    ensures var first := Eval(l, k, codes);
      Eval(Branch(op, l, r), k, codes) == Then(op, first, Eval(r, k + |first.1|, codes))
  {
  }

  /** Nesting equal operators either way makes no difference. */
  lemma {:induction false} Associative(op: Node, a: Tree, b: Tree, c: Tree, k: nat, codes: seq<int>)
    requires (op.And? || op.Or?) && TreeOk(a) && TreeOk(b) && TreeOk(c)
    ensures TreeOk(Branch(op, Branch(op, a, b), c)) && TreeOk(Branch(op, a, Branch(op, b, c)))
    ensures Eval(Branch(op, Branch(op, a, b), c), k, codes) == Eval(Branch(op, a, Branch(op, b, c)), k, codes)
  {
    var ab, bc := Branch(op, a, b), Branch(op, b, c);
    EvalBranch(op, a, b, k, codes);
    EvalBranch(op, ab, c, k, codes);
    EvalBranch(op, a, bc, k, codes);
    var ea, eab := Eval(a, k, codes), Eval(ab, k, codes);
    var m, n := |ea.1|, |eab.1|;
    EvalBranch(op, b, c, k + m, codes);
    var eb := Eval(b, k + m, codes);
    ThenAssociates(op, ea, eb, Eval(c, k + n, codes), Eval(c, k + m + |eb.1|, codes));
  }

  /** Under equal operators the first group can be taken out of a left-nested list. */
  lemma {:induction false} LeftNestCons(groups: seq<Group>, ops: seq<Node>, k: nat, codes: seq<int>)
    requires ListOk(groups, ops) && |ops| > 0 && Uniform(ops)
    ensures TreeOk(LeftNest(groups, ops)) && TreeOk(LeftNest(groups[1..], ops[1..]))
    ensures Eval(LeftNest(groups, ops), k, codes)
         == Eval(Branch(ops[0], Leaf(groups[0]), LeftNest(groups[1..], ops[1..])), k, codes)
    decreases groups
  {
    var n := |ops|;
    LeftNestOk(groups, ops);
    LeftNestOk(groups[1..], ops[1..]);
    if n > 1 {
      var init, initOps := groups[..n], ops[..n - 1];
      LeftNestCons(init, initOps, k, codes);
      assert groups[1..][..n - 1] == init[1..] && ops[1..][..n - 2] == initOps[1..];
      var middle := LeftNest(init[1..], initOps[1..]);
      Associative(ops[0], Leaf(groups[0]), middle, Leaf(groups[n]), k, codes);
    } else {
      assert groups[1..][0] == groups[1] && groups[..1][0] == groups[0];
    }
  }

  lemma {:induction false} UniformAgrees(groups: seq<Group>, ops: seq<Node>, k: nat, codes: seq<int>)
    requires ListOk(groups, ops) && Uniform(ops)
    ensures TreeOk(LeftNest(groups, ops)) && TreeOk(RightNest(groups, ops))
    ensures Eval(LeftNest(groups, ops), k, codes) == Eval(RightNest(groups, ops), k, codes)
    decreases groups
  {
    LeftNestOk(groups, ops);
    RightNestOk(groups, ops);
    if |ops| > 0 {
      LeftNestCons(groups, ops, k, codes);
      var (s, ls) := Eval(Leaf(groups[0]), k, codes);
      UniformAgrees(groups[1..], ops[1..], k + |ls|, codes);
    }
  }

  /** A left-nested list launches at least as much as its prefix. */
  lemma {:induction false} LeftPrefix(groups: seq<Group>, ops: seq<Node>, m: nat, k: nat, codes: seq<int>)
    requires ListOk(groups, ops) && m <= |ops|
    ensures ListOk(groups[..m + 1], ops[..m])
    ensures TreeOk(LeftNest(groups, ops)) && TreeOk(LeftNest(groups[..m + 1], ops[..m]))
    ensures |Eval(LeftNest(groups, ops), k, codes).1| >= |Eval(LeftNest(groups[..m + 1], ops[..m]), k, codes).1|
    decreases groups
  {
    var n := |ops|;
    LeftNestOk(groups, ops);
    if m < n {
      LeftPrefix(groups[..n], ops[..n - 1], m, k, codes);
      assert groups[..n][..m + 1] == groups[..m + 1] && ops[..n - 1][..m] == ops[..m];
    } else {
      assert groups[..m + 1] == groups && ops[..m] == ops;
    }
  }

  /** When the first group stops a uniform list, only the first group is launched. */
  lemma {:induction false} LeftStops(groups: seq<Group>, ops: seq<Node>, k: nat, codes: seq<int>)
    requires ListOk(groups, ops) && Uniform(ops)
    requires forall i :: 0 <= i < |ops| ==> (ops[i].And? <==> CodeAt(codes, k + |groups[0]| - 1) != 0)
    ensures TreeOk(LeftNest(groups, ops))
    ensures Eval(LeftNest(groups, ops), k, codes) == (CodeAt(codes, k + |groups[0]| - 1), LaunchGroup(groups[0], k, false))
    decreases groups
  {
    LeftNestOk(groups, ops);
    var n := |ops|;
    if n > 0 {
      LeftStops(groups[..n], ops[..n - 1], k, codes);
    }
  }

  /**
    A list that changes operator is read differently: if the first group short-circuits, a run
    ends there, while the left-associative reading goes on at the first other operator.
   */
  lemma {:induction false} MixedDiffers(groups: seq<Group>, ops: seq<Node>, k: nat) returns (codes: seq<int>)
    requires ListOk(groups, ops) && !Uniform(ops)
    ensures TreeOk(LeftNest(groups, ops)) && TreeOk(RightNest(groups, ops))
    ensures |Eval(LeftNest(groups, ops), k, codes).1| > |Eval(RightNest(groups, ops), k, codes).1|
  {
    LeftNestOk(groups, ops);
    RightNestOk(groups, ops);
    var stop := if ops[0].And? then 1 else 0;
    codes := seq(k + |groups[0]|, _ => stop);
    EvalRightNest(groups, ops, k, codes);
    LaunchGroupSize(groups[0], k, false);
    var m := FirstChange(ops);
    LeftPrefix(groups, ops, m + 1, k, codes);
    var some, someOps := groups[..m + 2], ops[..m + 1];
    assert some[..m + 1] == groups[..m + 1] && someOps[..m] == ops[..m];
    LeftNestOk(some, someOps);
    LeftStops(groups[..m + 1], ops[..m], k, codes);
    LaunchGroupSize(groups[m + 1], k + |groups[0]|, false);
    assert LeftNest(some, someOps) == Branch(ops[m], LeftNest(groups[..m + 1], ops[..m]), Leaf(groups[m + 1]));
  }

  lemma {:induction false} FirstChange(ops: seq<Node>) returns (m: nat)
    requires !Uniform(ops) && forall i :: 0 <= i < |ops| ==> ops[i].And? || ops[i].Or?
    ensures 0 < m < |ops| && ops[m] != ops[0] && forall i :: 0 <= i < m ==> ops[i] == ops[0]
  {
    m := 1;
    while m < |ops| && ops[m] == ops[0]
      invariant 1 <= m && (m <= |ops| || ops == []) && forall i :: 0 <= i < m && i < |ops| ==> ops[i] == ops[0]
    {
      m := m + 1;
    }
  }

  /** Both nestings give the same status and launch the same processes. */
  ghost predicate ReadAlike(groups: seq<Group>, ops: seq<Node>, k: nat, codes: seq<int>)
    requires ListOk(groups, ops)
  {
    RightNestOk(groups, ops);
    LeftNestOk(groups, ops);
    Eval(RightNest(groups, ops), k, codes) == Eval(LeftNest(groups, ops), k, codes)
  }

  /**
    The two nestings of a list of groups mean the same, whatever the exit codes, exactly when the
    list uses only one of the two operators.
   */
  lemma {:induction false} NestingsAgreeIff(groups: seq<Group>, ops: seq<Node>, k: nat)
    requires ListOk(groups, ops)
    ensures TreeOk(LeftNest(groups, ops)) && TreeOk(RightNest(groups, ops))
    ensures (forall codes :: ReadAlike(groups, ops, k, codes)) <==> Uniform(ops)
  {
    LeftNestOk(groups, ops);
    RightNestOk(groups, ops);
    if Uniform(ops) {
      forall codes ensures ReadAlike(groups, ops, k, codes) {
        UniformAgrees(groups, ops, k, codes);
      }
    } else {
      var codes := MixedDiffers(groups, ops, k);
      assert !ReadAlike(groups, ops, k, codes);
    }
  }

  // ---------------------------------------------------------------- when run fails

  lemma {:induction false} GoodRunReturns(p: seq<Node>, cwd: string, k: nat, piped: bool, codes: seq<int>)
    requires Rest(p) && NoBadCd(p) && (piped ==> k > 0)
    ensures RunSpec(p, cwd, k, piped, codes).Returned?
  {
    RunIsEvalRight(p, cwd, k, piped, codes);
  }

  /** Exit codes that lead a run up to its first bad cd, after processes that have returned those of before. */
  lemma {:induction false} BadCdRaises(p: seq<Node>, cwd: string, k: nat, piped: bool, before: seq<int>) returns (codes: seq<int>)
    requires Rest(p) && !NoBadCd(p) && (piped ==> k > 0) && |before| == k
    ensures before <= codes && RunSpec(p, cwd, k, piped, codes).Raised?
    decreases p
  {
    if p[0].Chdir? && (|p| == 1 || p[0].dir.None?) {
      codes := before;
    } else {
      var i :| 0 <= i < |p| && p[i].Chdir? && (i == |p| - 1 || p[i].dir.None?);
      assert p[2..][i - 2] == p[i];
      if p[0].Chdir? {
        codes := BadCdRaises(p[2..], PathJoin(cwd, p[0].dir.value), k, piped, before);
      } else {
        var more := before + [if p[1].Or? then 1 else 0];
        codes := BadCdRaises(p[2..], cwd, k + 1, p[1].Pipe?, more);
        assert codes[k] == more[k];
      }
    }
  }

  /** A parsed pipeline can make run fail exactly when some cd in it is last or says no directory. */
  lemma {:induction false} RunReturnsIff(p: seq<Node>)
    requires Canonical(p)
    ensures (forall codes :: RunOf(p, 0, codes).Returned?) <==> NoBadCd(p)
  {
    CanonicalRest(p);
    if NoBadCd(p) {
      forall codes ensures RunOf(p, 0, codes).Returned? {
        GoodRunReturns(p, ".", 0, false, codes);
      }
    } else {
      var codes := BadCdRaises(p, ".", 0, false, []);
      assert RunOf(p, 0, codes).Raised?;
    }
  }

  // ---------------------------------------------------------------- how the processes are wired

  /** A process reads from its predecessor's pipe exactly when the predecessor writes into one. */
  ghost predicate Wired(ls: seq<Launch>, k: nat) {
    && (forall i :: 0 < i < |ls| ==> (ls[i].stdin == PipeFrom(k + i - 1) <==> ls[i - 1].stdout == NewPipe))
    && (forall i :: 0 <= i < |ls| && ls[i].stdin.PipeFrom? ==> ls[i].stdin.proc + 1 == k + i)
    && (ls != [] ==> ls[|ls| - 1].stdout != NewPipe)
  }

  lemma {:induction false} WiredCons(l: Launch, more: seq<Launch>, k: nat)
    requires more != [] && Wired(more, k + 1) && (l.stdin.PipeFrom? ==> l.stdin.proc + 1 == k)
    requires more[0].stdin.PipeFrom? <==> l.stdout == NewPipe
    ensures Wired([l] + more, k)
  {
    var ls := [l] + more;
    forall i | 0 <= i < |ls|
      ensures i > 0 ==> (ls[i].stdin == PipeFrom(k + i - 1) <==> ls[i - 1].stdout == NewPipe)
      ensures ls[i].stdin.PipeFrom? ==> ls[i].stdin.proc + 1 == k + i
    {
      if i > 0 {
        assert ls[i] == more[i - 1];
        assert i > 1 ==> ls[i - 1] == more[i - 2];
      }
    }
  }

  /** Standard input is only ever taken from the process just before, and only from a pipe it was given. */
  lemma {:induction false} RunWired(p: seq<Node>, cwd: string, k: nat, piped: bool, codes: seq<int>)
    requires Rest(p) && NoBadCd(p) && (piped ==> k > 0)
    ensures var ls := RunSpec(p, cwd, k, piped, codes).launches;
      ls != [] && (ls[0].stdin.PipeFrom? <==> piped) && Wired(ls, k)
    decreases p
  {
    if p[0].Chdir? {
      RunWired(p[2..], PathJoin(cwd, p[0].dir.value), k, piped, codes);
    } else if |p| > 1 {
      RunWired(p[2..], cwd, k + 1, p[1].Pipe?, codes);
      GoodRunReturns(p[2..], cwd, k + 1, p[1].Pipe?, codes);
      RunOne(p, cwd, k, piped, codes);
      WiredCons(LaunchOf(p[0], cwd, k, piped), RunSpec(p[2..], cwd, k + 1, p[1].Pipe?, codes).launches, k);
    }
  }
}
