/**
  The reading that POSIX.1-2017 gives a parsed pipeline, and exactly which pipelines run as it says.

  XCU section 2.9.3: an AND-OR list is read from left to right, and each of its elements is a
  pipeline of XCU section 2.9.2.  A cd is an element like any other: it starts no process, succeeds,
  and moves the shell, unless it is one stage of a longer pipeline and so moves only a subshell.  A
  redirection of standard input takes precedence over the pipe, and files are found from the
  directory the shell has moved to.
 */
module PosixLists {
  import opened Wrappers
  import opened ShellParser
  import opened ShellSyntax
  import opened ShellRunner
  import opened LaunchLaws
  import opened ShellLaws

  // ---------------------------------------------------------------- the shell

  datatype Shell = Shell(status: int, cwd: string, launches: seq<Launch>)

  /** How many processes were started before, what each process returns, and where a bare cd goes. */
  datatype Setting = Setting(k: nat, codes: seq<int>, home: string)

  function Resolve(cwd: string, name: string): string {
    if cwd == "." then name else PathJoin(cwd, name)
  }

  function PosixSink(r: Redirect, cwd: string): Sink {
    match r
    case Inherited => InheritOut
    case ToFile(name) => if IsNullName(name) then NullDevice else WriteFile(Resolve(cwd, name))
    case ToPipe => NewPipe
    case ToStdout => SameAsStdout
  }

  function PosixLaunch(cmd: Node, cwd: string, k: nat, piped: bool): Launch
    requires cmd.Command? && (piped ==> k > 0)
  {
    Launch(cmd.argv,
           if cmd.stdin.Some? then ReadFile(Resolve(cwd, cmd.stdin.value)) else if piped then PipeFrom(k - 1) else InheritIn,
           PosixSink(cmd.stdout, cwd), PosixSink(cmd.stderr, cwd), cmd.env,
           if cwd == "." then None else Some(cwd))
  }

  function Moved(cwd: string, cd: Node, home: string): string
    requires cd.Chdir?
  {
    PathJoin(cwd, if cd.dir.Some? then cd.dir.value else home)
  }

  /** One stage of a pipeline. */
  function Stage(n: Node, alone: bool, piped: bool, s: Shell, e: Setting): Shell
    requires (n.Command? || n.Chdir?) && (piped ==> e.k + |s.launches| > 0)
  {
    if n.Chdir? then
      s.(status := 0, cwd := if alone then Moved(s.cwd, n, e.home) else s.cwd)
    else
      var next := e.k + |s.launches|;
      s.(status := CodeAt(e.codes, next), launches := s.launches + [PosixLaunch(n, s.cwd, next, piped)])
  }

  ghost predicate IsPipeline(g: seq<Node>) {
    && g != [] && (forall i :: 0 <= i < |g| - 1 ==> g[i].Command?)
    && (g[|g| - 1].Command? || g[|g| - 1].Chdir?)
  }

  /** The stages one after the other; the status is that of the last. */
  ghost function Stages(g: seq<Node>, piped: bool, s: Shell, e: Setting): Shell
    requires IsPipeline(g) && (piped ==> e.k + |s.launches| > 0)
    decreases g
  {
    var t := Stage(g[0], !piped && |g| == 1, piped, s, e);
    if |g| == 1 then t else Stages(g[1..], true, t, e)
  }

  /** Going on to a pipeline after && or ||. */
  ghost function GoOnTo(op: Node, g: seq<Node>, s: Shell, e: Setting): Shell
    requires IsPipeline(g)
  {
    if op.And? <==> s.status == 0 then Stages(g, false, s, e) else s
  }

  ghost predicate AndOrListOk(pipelines: seq<seq<Node>>, ops: seq<Node>) {
    |pipelines| == |ops| + 1 && forall i :: 0 <= i < |pipelines| ==> IsPipeline(pipelines[i])
  }

  /** An AND-OR list: a list, an operator and one more pipeline, associated to the left. */
  ghost function AndOrList(pipelines: seq<seq<Node>>, ops: seq<Node>, s: Shell, e: Setting): Shell
    requires AndOrListOk(pipelines, ops)
    decreases ops
  {
    var n := |ops|;
    if n == 0 then Stages(pipelines[0], false, s, e)
    else GoOnTo(ops[n - 1], pipelines[n], AndOrList(pipelines[..n], ops[..n - 1], s, e), e)
  }

  datatype Parts = Parts(pipelines: seq<seq<Node>>, ops: seq<Node>)

  /** The pipelines of a node list and the operators between them; every cd is kept. */
  ghost function PartsOf(p: seq<Node>): (l: Parts)
    requires Rest(p)
    ensures AndOrListOk(l.pipelines, l.ops) && l.pipelines[0][0] == p[0]
    decreases p
  {
    if |p| == 1 then Parts([p], []) else
    var more := PartsOf(p[2..]);
    if p[1].Pipe? then Parts([[p[0]] + more.pipelines[0]] + more.pipelines[1..], more.ops)
    else Parts([[p[0]]] + more.pipelines, [p[1]] + more.ops)
  }

  ghost function PosixOf(p: seq<Node>, e: Setting): Shell
    requires Rest(p)
  {
    AndOrList(PartsOf(p).pipelines, PartsOf(p).ops, Shell(0, ".", []), e)
  }

  /** The run returns the status, and launches the processes, that POSIX says. */
  ghost predicate RunsAsPosixList(p: seq<Node>, e: Setting)
    requires Canonical(p) && Rest(p)
  {
    RunOf(p, e.k, e.codes) == Returned(PosixOf(p, e).status, PosixOf(p, e).launches)
  }

  // ---------------------------------------------------------------- which pipelines run as POSIX says

  predicate AbsoluteSink(r: Redirect) {
    r.ToFile? && !IsNullName(r.file) ==> IsAbsolute(r.file)
  }

  /** No redirection competes with a pipe and, once a cd came before, none names a relative file. */
  predicate PlainCommand(cmd: Node, moved: bool, piped: bool)
    requires cmd.Command?
  {
    && !(piped && cmd.stdin.Some?)
    && (moved ==> (cmd.stdin.Some? ==> IsAbsolute(cmd.stdin.value)) && AbsoluteSink(cmd.stdout) && AbsoluteSink(cmd.stderr))
  }

  /** No cd is last, says no directory or stands in a pipe, and every command is plain. */
  ghost predicate Plain(p: seq<Node>, moved: bool, piped: bool)
    requires Rest(p)
    decreases p
  {
    if p[0].Chdir? then !piped && |p| > 1 && p[0].dir.Some? && Plain(p[2..], true, false)
    else PlainCommand(p[0], moved, piped) && (|p| == 1 || Plain(p[2..], moved, p[1].Pipe?))
  }

  function AfterLeadingCds(p: seq<Node>): seq<Node>
    decreases p
  {
    if |p| > 2 && p[0].Chdir? then AfterLeadingCds(p[2..]) else p
  }

  /** Every operator of the list but for pipes is op. */
  predicate OnlyOperator(p: seq<Node>, op: Node)
    decreases p
  {
    |p| < 2 || ((p[1].Pipe? || p[1] == op) && OnlyOperator(p[2..], op))
  }

  ghost predicate PosixAlike(p: seq<Node>)
    requires Rest(p)
  {
    Plain(p, false, false) && (OnlyOperator(AfterLeadingCds(p), And) || OnlyOperator(AfterLeadingCds(p), Or))
  }

  // ---------------------------------------------------------------- the list, node by node

  /** The pipelines and operators still to come. */
  ghost function Onward(pipelines: seq<seq<Node>>, ops: seq<Node>, s: Shell, e: Setting): Shell
    requires |pipelines| == |ops| && forall i :: 0 <= i < |pipelines| ==> IsPipeline(pipelines[i])
    decreases ops
  {
    if ops == [] then s else Onward(pipelines[1..], ops[1..], GoOnTo(ops[0], pipelines[0], s, e), e)
  }

  lemma {:induction false} OnwardLast(pipelines: seq<seq<Node>>, ops: seq<Node>, s: Shell, e: Setting)
    requires |pipelines| == |ops| > 0 && forall i :: 0 <= i < |pipelines| ==> IsPipeline(pipelines[i])
    ensures var n := |ops| - 1;
      Onward(pipelines, ops, s, e) == GoOnTo(ops[n], pipelines[n], Onward(pipelines[..n], ops[..n], s, e), e)
    decreases ops
  {
    var n := |ops| - 1;
    if n > 0 {
      OnwardLast(pipelines[1..], ops[1..], GoOnTo(ops[0], pipelines[0], s, e), e);
      assert pipelines[1..][..n - 1] == pipelines[..n][1..] && ops[1..][..n - 1] == ops[..n][1..];
    }
  }

  /** Reading to the left or stepping through from left to right is the same. */
  lemma {:induction false} ListIsOnward(pipelines: seq<seq<Node>>, ops: seq<Node>, s: Shell, e: Setting)
    requires AndOrListOk(pipelines, ops)
    ensures AndOrList(pipelines, ops, s, e) == Onward(pipelines[1..], ops, Stages(pipelines[0], false, s, e), e)
    decreases ops
  {
    var n := |ops|;
    if n > 0 {
      ListIsOnward(pipelines[..n], ops[..n - 1], s, e);
      OnwardLast(pipelines[1..], ops, Stages(pipelines[0], false, s, e), e);
      assert pipelines[1..][..n - 1] == pipelines[..n][1..];
    }
  }

  /** The rest of a list, whose first pipeline is executed, perhaps from its middle on, or skipped. */
  ghost function PosixFrom(p: seq<Node>, active: bool, piped: bool, s: Shell, e: Setting): Shell
    requires Rest(p) && (piped ==> e.k + |s.launches| > 0)
  {
    var l := PartsOf(p);
    Onward(l.pipelines[1..], l.ops, if active then Stages(l.pipelines[0], piped, s, e) else s, e)
  }

  ghost function Entered(p: seq<Node>, active: bool, piped: bool, s: Shell, e: Setting): Shell
    requires Rest(p) && (piped ==> e.k + |s.launches| > 0)
  {
    if active then Stage(p[0], !piped && (|p| == 1 || !p[1].Pipe?), piped, s, e) else s
  }

  lemma {:induction false} UnfoldPosix(p: seq<Node>, active: bool, piped: bool, s: Shell, e: Setting)
    requires Rest(p) && (piped ==> e.k + |s.launches| > 0)
    ensures var t := Entered(p, active, piped, s, e);
      PosixFrom(p, active, piped, s, e) ==
        if |p| == 1 then t
        else if p[1].Pipe? then PosixFrom(p[2..], active, active, t, e)
        else PosixFrom(p[2..], p[1].And? <==> t.status == 0, false, t, e)
  {
    var t := Entered(p, active, piped, s, e);
    if |p| > 1 {
      var l, more := PartsOf(p), PartsOf(p[2..]);
      assert l.pipelines[1..] == if p[1].Pipe? then more.pipelines[1..] else more.pipelines;
      if p[1].Pipe? {
        assert l.pipelines[0][1..] == more.pipelines[0];
      } else {
        assert l.ops[1..] == more.ops;
      }
    }
  }

  /** What was launched stays launched. */
  lemma {:induction false} PosixGrows(p: seq<Node>, active: bool, piped: bool, s: Shell, e: Setting)
    requires Rest(p) && (piped ==> e.k + |s.launches| > 0)
    ensures s.launches <= PosixFrom(p, active, piped, s, e).launches
    decreases p
  {
    UnfoldPosix(p, active, piped, s, e);
    if |p| > 1 {
      var t := Entered(p, active, piped, s, e);
      PosixGrows(p[2..], if p[1].Pipe? then active else p[1].And? <==> t.status == 0, p[1].Pipe? && active, t, e);
    }
  }

  lemma {:induction false} CommandFirst(p: seq<Node>, piped: bool, s: Shell, e: Setting)
    requires Rest(p) && p[0].Command? && (piped ==> e.k + |s.launches| > 0)
    ensures var t, n := PosixFrom(p, true, piped, s, e), |s.launches|;
      s.launches < t.launches && t.launches[n] == PosixLaunch(p[0], s.cwd, e.k + n, piped)
  {
    UnfoldPosix(p, true, piped, s, e);
    if |p| > 1 {
      var t := Entered(p, true, piped, s, e);
      PosixGrows(p[2..], if p[1].Pipe? then true else p[1].And? <==> t.status == 0, p[1].Pipe?, t, e);
    }
  }

  lemma {:induction false} NoBadCdRest(p: seq<Node>)
    requires Rest(p) && NoBadCd(p)
    ensures p[0].Chdir? ==> |p| > 1 && p[0].dir.Some? && p[1].And?
    ensures |p| > 1 ==> NoBadCd(p[2..])
  {
    if |p| > 1 {
      forall i | 0 <= i < |p[2..]| && p[2..][i].Chdir? ensures i < |p[2..]| - 1 && p[2..][i].dir.Some? {
        assert p[i + 2] == p[2..][i];
      }
    }
  }

  /** A list that is gone on with starts some process, and the first one reads from no pipe. */
  lemma {:induction false} GoesOnToLaunch(p: seq<Node>, s: Shell, e: Setting)
    requires Rest(p) && NoBadCd(p)
    ensures var t := PosixFrom(p, true, false, s, e);
      s.launches < t.launches && !t.launches[|s.launches|].stdin.PipeFrom?
    decreases p
  {
    NoBadCdRest(p);
    if p[0].Chdir? {
      UnfoldPosix(p, true, false, s, e);
      GoesOnToLaunch(p[2..], Entered(p, true, false, s, e), e);
    } else {
      CommandFirst(p, false, s, e);
    }
  }

  // ---------------------------------------------------------------- the run beside the list

  /** From here on the run does what the list does. */
  ghost predicate RunsLike(p: seq<Node>, piped: bool, s: Shell, e: Setting)
    requires Rest(p) && (piped ==> e.k + |s.launches| > 0)
  {
    Matches(RunSpec(p, s.cwd, e.k + |s.launches|, piped, e.codes), PosixFrom(p, true, piped, s, e), s.launches)
  }

  /** After the launches of before, the run has brought the shell to t. */
  ghost predicate Matches(r: Outcome, t: Shell, before: seq<Launch>) {
    r.Returned? && r.status == t.status && before + r.launches == t.launches
  }

  lemma {:induction false} MatchesNext(r: Outcome, t: Shell, before: seq<Launch>, l: Launch)
    ensures Matches(After([l], r), t, before) <==> Matches(r, t, before + [l])
  {
    assert before + ([l] + r.launches) == before + [l] + r.launches;
  }

  lemma {:induction false} RunsLikeWhole(p: seq<Node>, e: Setting)
    requires Canonical(p)
    ensures Rest(p) && (RunsAsPosixList(p, e) <==> RunsLike(p, false, Shell(0, ".", []), e))
  {
    CanonicalRest(p);
    var s := Shell(0, ".", []);
    ListIsOnward(PartsOf(p).pipelines, PartsOf(p).ops, s, e);
    assert s.launches + RunOf(p, e.k, e.codes).launches == RunOf(p, e.k, e.codes).launches;
  }

  /** One command on, if it does not end the run. */
  lemma {:induction false} RunsLikeNext(p: seq<Node>, piped: bool, s: Shell, e: Setting)
    requires Rest(p) && |p| > 1 && p[0].Command? && (piped ==> e.k + |s.launches| > 0)
    requires LaunchOf(p[0], s.cwd, e.k + |s.launches|, piped) == PosixLaunch(p[0], s.cwd, e.k + |s.launches|, piped)
    requires p[1].Pipe? || (p[1].And? <==> CodeAt(e.codes, e.k + |s.launches|) == 0)
    ensures RunsLike(p, piped, s, e) <==> RunsLike(p[2..], p[1].Pipe?, Entered(p, true, piped, s, e), e)
  {
    UnfoldPosix(p, true, piped, s, e);
    var t := Entered(p, true, piped, s, e);
    var r := RunSpec(p[2..], t.cwd, e.k + |t.launches|, p[1].Pipe?, e.codes);
    MatchesNext(r, PosixFrom(p, true, piped, s, e), s.launches, LaunchOf(p[0], s.cwd, e.k + |s.launches|, piped));
  }

  lemma {:induction false} RunsLikeAfterCd(p: seq<Node>, s: Shell, e: Setting)
    requires Rest(p) && |p| > 1 && p[0].Chdir? && p[0].dir.Some?
    ensures RunsLike(p, false, s, e) <==> RunsLike(p[2..], false, Entered(p, true, false, s, e), e)
  {
    UnfoldPosix(p, true, false, s, e);
  }

  // ---------------------------------------------------------------- launches

  lemma {:induction false} ResolvesIff(cwd: string, moved: bool, name: string)
    requires Whereabouts(cwd, moved)
    ensures Resolve(cwd, name) == name <==> (moved ==> IsAbsolute(name))
  {
    if moved && !IsAbsolute(name) {
      assert |Resolve(cwd, name)| > |name|;
    }
  }

  /** A command is launched alike exactly when it is plain. */
  lemma {:induction false} LaunchedAlikeIff(cmd: Node, cwd: string, moved: bool, k: nat, piped: bool)
    requires cmd.Command? && (piped ==> k > 0) && Whereabouts(cwd, moved)
    ensures LaunchOf(cmd, cwd, k, piped) == PosixLaunch(cmd, cwd, k, piped) <==> PlainCommand(cmd, moved, piped)
  {
    if cmd.stdin.Some? { ResolvesIff(cwd, moved, cmd.stdin.value); }
    if cmd.stdout.ToFile? { ResolvesIff(cwd, moved, cmd.stdout.file); }
    if cmd.stderr.ToFile? { ResolvesIff(cwd, moved, cmd.stderr.file); }
  }

  // ---------------------------------------------------------------- alike

  lemma {:induction false} Skipped(p: seq<Node>, op: Node, s: Shell, e: Setting)
    requires Rest(p) && OnlyOperator(p, op) && !(op.And? <==> s.status == 0)
    ensures PosixFrom(p, false, false, s, e) == s
    decreases p
  {
    UnfoldPosix(p, false, false, s, e);
    if |p| > 1 { Skipped(p[2..], op, s, e); }
  }

  lemma {:induction false} AlikeFrom(p: seq<Node>, moved: bool, piped: bool, op: Node, s: Shell, e: Setting)
    requires Rest(p) && Plain(p, moved, piped) && OnlyOperator(p, op)
    requires Whereabouts(s.cwd, moved) && (piped ==> e.k + |s.launches| > 0)
    ensures RunsLike(p, piped, s, e)
    decreases p
  {
    var t := Entered(p, true, piped, s, e);
    if p[0].Chdir? {
      CdMoves(s.cwd, p[0].dir.value);
      AlikeFrom(p[2..], true, false, op, t, e);
      RunsLikeAfterCd(p, s, e);
    } else {
      LaunchedAlikeIff(p[0], s.cwd, moved, e.k + |s.launches|, piped);
      if |p| > 1 && (p[1].Pipe? || (p[1].And? <==> t.status == 0)) {
        AlikeFrom(p[2..], moved, p[1].Pipe?, op, t, e);
        RunsLikeNext(p, piped, s, e);
      } else {
        UnfoldPosix(p, true, piped, s, e);
        if |p| > 1 { Skipped(p[2..], op, t, e); }
      }
    }
  }

  lemma {:induction false} AlikeAfterCds(p: seq<Node>, moved: bool, op: Node, s: Shell, e: Setting)
    requires Rest(p) && Plain(p, moved, false) && OnlyOperator(AfterLeadingCds(p), op) && Whereabouts(s.cwd, moved)
    ensures RunsLike(p, false, s, e)
    decreases p
  {
    if p[0].Chdir? {
      CdMoves(s.cwd, p[0].dir.value);
      AlikeAfterCds(p[2..], true, op, Entered(p, true, false, s, e), e);
      RunsLikeAfterCd(p, s, e);
    } else {
      AlikeFrom(p, moved, false, op, s, e);
    }
  }

  // ---------------------------------------------------------------- not alike: a command or cd that is not plain

  /** Exit codes that lead the run up to what is not plain. */
  lemma {:induction false} OddDiffers(p: seq<Node>, moved: bool, piped: bool, s: Shell, k: nat, home: string, before: seq<int>)
    returns (codes: seq<int>)
    requires Rest(p) && NoBadCd(p) && !Plain(p, moved, piped) && Whereabouts(s.cwd, moved)
    requires |before| == k + |s.launches| && (piped ==> k + |s.launches| > 0)
    ensures before <= codes && !RunsLike(p, piped, s, Setting(k, codes, home))
    decreases p
  {
    var n := |before|;
    NoBadCdRest(p);
    if p[0].Chdir? && piped {
      codes := before;
      PipedCdDiffers(p, s, Setting(k, codes, home));
    } else if p[0].Chdir? {
      CdMoves(s.cwd, p[0].dir.value);
      var t := Entered(p, true, false, s, Setting(k, before, home));
      codes := OddDiffers(p[2..], true, false, t, k, home, before);
      RunsLikeAfterCd(p, s, Setting(k, codes, home));
    } else if !PlainCommand(p[0], moved, piped) {
      codes := before;
      OddCommandDiffers(p, moved, piped, s, Setting(k, codes, home));
    } else {
      var more := before + [if p[1].Or? then 1 else 0];
      var t := Entered(p, true, piped, s, Setting(k, more, home));
      codes := OddDiffers(p[2..], moved, p[1].Pipe?, t, k, home, more);
      MoreCodes(p, piped, s, k, home, more, codes);
      LaunchedAlikeIff(p[0], s.cwd, moved, n, piped);
      RunsLikeNext(p, piped, s, Setting(k, codes, home));
    }
  }

  /** Codes of processes still to come do not change what the next one returns. */
  lemma {:induction false} MoreCodes(p: seq<Node>, piped: bool, s: Shell, k: nat, home: string, before: seq<int>, codes: seq<int>)
    requires Rest(p) && |before| == k + |s.launches| + 1 && before <= codes && (piped ==> k + |s.launches| > 0)
    ensures CodeAt(codes, |before| - 1) == before[|before| - 1]
    ensures Entered(p, true, piped, s, Setting(k, before, home)) == Entered(p, true, piped, s, Setting(k, codes, home))
  {
    assert codes[|before| - 1] == before[|before| - 1];
  }

  lemma {:induction false} OddCommandDiffers(p: seq<Node>, moved: bool, piped: bool, s: Shell, e: Setting)
    requires Rest(p) && p[0].Command? && !PlainCommand(p[0], moved, piped) && Whereabouts(s.cwd, moved)
    requires piped ==> e.k + |s.launches| > 0
    ensures !RunsLike(p, piped, s, e)
  {
    LaunchedAlikeIff(p[0], s.cwd, moved, e.k + |s.launches|, piped);
    CommandFirst(p, piped, s, e);
    FirstOfRun(p, s.cwd, e.k + |s.launches|, piped, e.codes);
  }

  lemma {:induction false} FirstOfRun(p: seq<Node>, cwd: string, k: nat, piped: bool, codes: seq<int>)
    requires Rest(p) && p[0].Command? && (piped ==> k > 0)
    ensures var ls := RunSpec(p, cwd, k, piped, codes).launches;
      ls != [] && ls[0] == LaunchOf(p[0], cwd, k, piped)
  {
  }

  /** The run pipes into the command after the cd; the list lets it inherit its input. */
  lemma {:induction false} PipedCdDiffers(p: seq<Node>, s: Shell, e: Setting)
    requires Rest(p) && NoBadCd(p) && p[0].Chdir? && e.k + |s.launches| > 0
    ensures !RunsLike(p, true, s, e)
  {
    NoBadCdRest(p);
    UnfoldPosix(p, true, true, s, e);
    GoesOnToLaunch(p[2..], Entered(p, true, true, s, e), e);
    RunWired(p, s.cwd, e.k + |s.launches|, true, e.codes);
  }

  // ---------------------------------------------------------------- not alike: a list that mixes its operators

  lemma {:induction false} SkippedTo(p: seq<Node>, op: Node, s: Shell, e: Setting)
    requires Rest(p) && NoBadCd(p) && !OnlyOperator(p, op)
    requires (op.And? || op.Or?) && !(op.And? <==> s.status == 0)
    ensures |PosixFrom(p, false, false, s, e).launches| > |s.launches|
    decreases p
  {
    UnfoldPosix(p, false, false, s, e);
    NoBadCdRest(p);
    if p[1].Pipe? || p[1] == op {
      SkippedTo(p[2..], op, s, e);
    } else {
      GoesOnToLaunch(p[2..], s, e);
    }
  }

  /** The first && or ||; a list without any counts as one of &&. */
  function FirstOperator(p: seq<Node>): Node
    decreases p
  {
    if |p| < 2 then And else if p[1].Pipe? then FirstOperator(p[2..]) else p[1]
  }

  lemma {:induction false} FirstIsOperator(p: seq<Node>)
    requires Rest(p)
    ensures FirstOperator(p).And? || FirstOperator(p).Or?
    ensures Rest(AfterLeadingCds(p)) && (FirstOperator(AfterLeadingCds(p)).And? || FirstOperator(AfterLeadingCds(p)).Or?)
    decreases p
  {
    if |p| > 1 { FirstIsOperator(p[2..]); }
  }

  /** When every process of the first pipeline stops the run, the list still goes on somewhere. */
  lemma {:induction false} MixedGoesOn(p: seq<Node>, moved: bool, piped: bool, s: Shell, e: Setting)
    requires Rest(p) && p[0].Command? && Plain(p, moved, piped) && NoBadCd(p) && !OnlyOperator(p, FirstOperator(p))
    requires piped ==> e.k + |s.launches| > 0
    requires forall i :: e.k + |s.launches| <= i < e.k + |s.launches| + |p| ==>
      (FirstOperator(p).And? <==> CodeAt(e.codes, i) != 0)
    ensures |s.launches + RunSpec(p, s.cwd, e.k + |s.launches|, piped, e.codes).launches|
      < |PosixFrom(p, true, piped, s, e).launches|
    decreases p
  {
    UnfoldPosix(p, true, piped, s, e);
    NoBadCdRest(p);
    var t := Entered(p, true, piped, s, e);
    assert RunSpec(p, s.cwd, e.k + |s.launches|, piped, e.codes) ==
      if p[1].Pipe? then After([LaunchOf(p[0], s.cwd, e.k + |s.launches|, piped)],
                               RunSpec(p[2..], t.cwd, e.k + |t.launches|, true, e.codes))
      else Returned(CodeAt(e.codes, e.k + |s.launches|), [LaunchOf(p[0], s.cwd, e.k + |s.launches|, piped)]);
    if p[1].Pipe? {
      MixedGoesOn(p[2..], moved, true, t, e);
    } else {
      SkippedTo(p[2..], p[1], t, e);
    }
  }

  lemma {:induction false} MixedDiffersFrom(p: seq<Node>, moved: bool, s: Shell, e: Setting)
    requires Rest(p) && Plain(p, moved, false) && NoBadCd(p) && Whereabouts(s.cwd, moved)
    requires var q := AfterLeadingCds(p);
      && !OnlyOperator(q, FirstOperator(q))
      && forall i :: e.k + |s.launches| <= i < e.k + |s.launches| + |p| ==>
        (FirstOperator(q).And? <==> CodeAt(e.codes, i) != 0)
    ensures !RunsLike(p, false, s, e)
    decreases p
  {
    NoBadCdRest(p);
    if p[0].Chdir? {
      CdMoves(s.cwd, p[0].dir.value);
      MixedDiffersFrom(p[2..], true, Entered(p, true, false, s, e), e);
      RunsLikeAfterCd(p, s, e);
    } else {
      MixedGoesOn(p, moved, false, s, e);
    }
  }

  // ---------------------------------------------------------------- the condition is exact

  lemma {:induction false} PlainHasNoBadCd(p: seq<Node>, moved: bool, piped: bool)
    requires Rest(p) && Plain(p, moved, piped)
    ensures NoBadCd(p)
    decreases p
  {
    if |p| > 1 {
      PlainHasNoBadCd(p[2..], moved || p[0].Chdir?, !p[0].Chdir? && p[1].Pipe?);
      forall i | 0 <= i < |p| && p[i].Chdir? ensures i < |p| - 1 && p[i].dir.Some? {
        assert i >= 2 ==> p[i] == p[2..][i - 2];
      }
    }
  }

  lemma {:induction false} NotAlikeDiffers(p: seq<Node>, k: nat, home: string) returns (codes: seq<int>)
    requires Canonical(p) && Rest(p) && !PosixAlike(p)
    ensures !RunsAsPosixList(p, Setting(k, codes, home))
  {
    var s := Shell(0, ".", []);
    if !NoBadCd(p) {
      codes := BadCdRaises(p, ".", k, false, seq(k, _ => 0));
    } else if !Plain(p, false, false) {
      codes := OddDiffers(p, false, false, s, k, home, seq(k, _ => 0));
    } else {
      FirstIsOperator(p);
      var stop := if FirstOperator(AfterLeadingCds(p)).And? then 1 else 0;
      codes := seq(k + |p|, _ => stop);
      MixedDiffersFrom(p, false, s, Setting(k, codes, home));
    }
    RunsLikeWhole(p, Setting(k, codes, home));
  }

  /**
    A parsed pipeline runs as POSIX says, whatever the exit codes, exactly when no cd in it is last,
    bare or part of a pipe, no redirection of standard input competes with a pipe, no relative file
    is named after a cd, and, leading cds aside, it uses only one of && and ||.
   */
  lemma {:induction false} RunIsPosixIff(p: seq<Node>, k: nat, home: string)
    requires Canonical(p)
    ensures Rest(p)
    ensures (forall codes :: RunsAsPosixList(p, Setting(k, codes, home))) <==> PosixAlike(p)
  {
    CanonicalRest(p);
    if PosixAlike(p) {
      var op := if OnlyOperator(AfterLeadingCds(p), And) then And else Or;
      forall codes ensures RunsAsPosixList(p, Setting(k, codes, home)) {
        AlikeAfterCds(p, false, op, Shell(0, ".", []), Setting(k, codes, home));
        RunsLikeWhole(p, Setting(k, codes, home));
      }
    } else {
      var codes := NotAlikeDiffers(p, k, home);
    }
  }

  /** A cd after || or in a pipe is enough for a difference: a || cd d && b and a | cd d && b. */
  lemma {:induction false} CdOutOfPlace(a: Node, b: Node, d: string)
    requires CommandOk(a) && CommandOk(b) && a.stdout != ToPipe && b.stdout != ToPipe && d != "&&"
    ensures var p := [a, Or, Chdir(Some(d)), And, b]; Rest(p) && !PosixAlike(p)
    ensures var q := [a.(stdout := ToPipe), Pipe, Chdir(Some(d)), And, b]; Rest(q) && !PosixAlike(q)
  {
    var p, q := [a, Or, Chdir(Some(d)), And, b], [a.(stdout := ToPipe), Pipe, Chdir(Some(d)), And, b];
    var rest := [Chdir(Some(d)), And, b];
    assert p[2..] == rest && q[2..] == rest && rest[2..] == [b];
    assert AfterLeadingCds(p) == p && AfterLeadingCds(q) == q;
    assert !Plain(rest, false, true);
    assert Rest([b]) && Rest(rest);
    assert !OnlyOperator(rest, Or);
  }
}
