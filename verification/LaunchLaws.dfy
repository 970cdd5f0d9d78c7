/**
  What a run starts, read off the nodes of the pipeline: which commands, in which directory, with
  which streams, and what becomes of the run at a cd that cannot be executed.
 */
module LaunchLaws {
  import opened Wrappers
  import opened ShellParser
  import opened ShellSyntax
  import opened ShellRunner

  // ---------------------------------------------------------------- joining paths

  /** The names between the slashes of a path. */
  function Components(path: string): seq<string> {
    Reading([], false, path)
  }

  function Reading(names: seq<string>, inName: bool, path: string): seq<string>
    decreases path
  {
    if path == "" then names else Reading(OneMore(names, inName, path[0]), path[0] != '/', path[1..])
  }

  /** A slash ends a name; any other character goes on with one, or begins one. */
  function OneMore(names: seq<string>, inName: bool, c: char): seq<string> {
    if c == '/' then names
    else if inName && names != [] then names[..|names| - 1] + [names[|names| - 1] + [c]]
    else names + [[c]]
  }

  predicate IsAbsolute(name: string) {
    name != "" && name[0] == '/'
  }

  lemma {:induction false} OneMoreBehind(names: seq<string>, more: seq<string>, inName: bool, c: char)
    requires inName ==> more != []
    ensures OneMore(names + more, inName, c) == names + OneMore(more, inName, c)
  {
    if c != '/' && inName {
      var n := |more| - 1;
      assert (names + more)[..|names| + n] == names + more[..n];
    }
  }

  lemma {:induction false} ReadingBehind(names: seq<string>, more: seq<string>, inName: bool, path: string)
    requires inName ==> more != []
    ensures Reading(names + more, inName, path) == names + Reading(more, inName, path)
    decreases path
  {
    if path != "" {
      OneMoreBehind(names, more, inName, path[0]);
      ReadingBehind(names, OneMore(more, inName, path[0]), path[0] != '/', path[1..]);
    }
  }

  lemma {:induction false} ReadingOn(names: seq<string>, inName: bool, a: string, b: string)
    ensures Reading(names, inName, a + b)
         == Reading(Reading(names, inName, a), if a == "" then inName else a[|a| - 1] != '/', b)
    decreases a
  {
    if a == "" {
      assert a + b == b;
    } else {
      assert (a + b)[1..] == a[1..] + b;
      ReadingOn(OneMore(names, inName, a[0]), a[0] != '/', a[1..], b);
    }
  }

  /** After a slash, whatever follows has names of its own. */
  lemma {:induction false} ComponentsAppend(a: string, b: string)
    requires a == "" || a[|a| - 1] == '/'
    ensures Components(a + b) == Components(a) + Components(b)
  {
    ReadingOn([], false, a, b);
    ReadingBehind(Components(a), [], false, b);
    assert Components(a) + [] == Components(a);
  }

  lemma {:induction false} ComponentsSlash(a: string)
    ensures Components(a + "/") == Components(a)
  {
    ReadingOn([], false, a, "/");
  }

  /**
    An absolute second path is the result.  Otherwise the result goes on from the first path with
    the names of the second, and one slash is put in between if there is none.
   */
  lemma {:induction false} PathJoinLaw(a: string, b: string)
    ensures IsAbsolute(b) ==> PathJoin(a, b) == b
    ensures !IsAbsolute(b) ==>
      && a <= PathJoin(a, b) && |b| <= |PathJoin(a, b)| && PathJoin(a, b)[|PathJoin(a, b)| - |b|..] == b
      && |PathJoin(a, b)| == |a| + |b| + (if a != "" && a[|a| - 1] != '/' then 1 else 0)
      && Components(PathJoin(a, b)) == Components(a) + Components(b)
    ensures a != "" ==> (IsAbsolute(PathJoin(a, b)) <==> IsAbsolute(a) || IsAbsolute(b))
  {
    if !IsAbsolute(b) {
      if a == "" || a[|a| - 1] == '/' {
        ComponentsAppend(a, b);
      } else {
        ComponentsAppend(a + "/", b);
        ComponentsSlash(a);
        assert (a + "/")[..|a|] == a;
      }
    }
  }

  // ---------------------------------------------------------------- the command of each launch

  ghost function CommandsBefore(p: seq<Node>, i: nat): nat
    requires i <= |p|
  {
    if i == 0 then 0 else CommandsBefore(p, i - 1) + (if p[i - 1].Command? then 1 else 0)
  }

  /** Where the directory changes up to node i have led. */
  ghost function DirectoryAt(p: seq<Node>, i: nat): string
    requires i <= |p|
  {
    if i == 0 then "." else
    if p[i - 1].Chdir? && p[i - 1].dir.Some? then PathJoin(DirectoryAt(p, i - 1), p[i - 1].dir.value)
    else DirectoryAt(p, i - 1)
  }

  ghost predicate CdBefore(p: seq<Node>, i: nat)
    requires i <= |p|
  {
    i > 0 && (p[i - 1].Chdir? || CdBefore(p, i - 1))
  }

  /** Every directory change before node i says where to. */
  ghost predicate CdsSayWhere(p: seq<Node>, i: nat)
    requires i <= |p|
  {
    i > 0 ==> (p[i - 1].Chdir? ==> p[i - 1].dir.Some?) && CdsSayWhere(p, i - 1)
  }

  /** Back from node i, a pipe operator comes before any command. */
  ghost predicate PipeBefore(p: seq<Node>, i: nat)
    requires i <= |p|
  {
    i > 0 && (p[i - 1].Pipe? || (!p[i - 1].Command? && PipeBefore(p, i - 1)))
  }

  /** Each kind of sink belongs to one kind of redirection. */
  ghost predicate SinkFits(sink: Sink, r: Redirect) {
    && (sink == InheritOut <==> r == Inherited)
    && (sink == SameAsStdout <==> r == ToStdout)
    && (sink == NewPipe <==> r == ToPipe)
    && (sink == NullDevice <==> r.ToFile? && (r.file == "NUL:" || r.file == "/dev/null"))
    && (sink.WriteFile? <==> r.ToFile? && r.file != "NUL:" && r.file != "/dev/null")
    && (sink.WriteFile? ==> sink.name == r.file)
  }

  /** The launch, which starts process number n, is that of node i. */
  ghost predicate LaunchFits(l: Launch, p: seq<Node>, i: nat, n: nat)
    requires i < |p| && p[i].Command?
  {
    && l.argv == p[i].argv && l.env == p[i].env
    && SinkFits(l.stdout, p[i].stdout) && SinkFits(l.stderr, p[i].stderr)
    && (l.stdin.PipeFrom? <==> PipeBefore(p, i)) && (l.stdin.PipeFrom? ==> l.stdin.proc + 1 == n)
    && (l.stdin.ReadFile? <==> !PipeBefore(p, i) && p[i].stdin.Some?)
    && (l.stdin.ReadFile? ==> l.stdin.name == p[i].stdin.value)
    && (l.stdin == InheritIn <==> !PipeBefore(p, i) && p[i].stdin == None)
    && l.cwd == if CdBefore(p, i) then Some(DirectoryAt(p, i)) else None
  }

  /** Launch number j is that of command number j. */
  ghost predicate LaunchOfCommand(l: Launch, p: seq<Node>, j: nat, n: nat) {
    exists i {:trigger IsCommandNo(p, i, j)} :: IsCommandNo(p, i, j) && LaunchFits(l, p, i, n)
  }

  ghost predicate IsCommandNo(p: seq<Node>, i: int, j: nat) {
    0 <= i < |p| && p[i].Command? && CommandsBefore(p, i) == j
  }

  /** The shell's directory is the one it started in exactly while no cd has been executed. */
  ghost predicate Whereabouts(cwd: string, moved: bool) {
    cwd != "" && (cwd == "." <==> !moved)
  }

  lemma {:induction false} CdMoves(cwd: string, dir: string)
    requires cwd != ""
    ensures Whereabouts(PathJoin(cwd, dir), true)
  {
    var w := PathJoin(cwd, dir);
    if IsAbsolute(dir) {
      assert w[0] == '/';
    } else if cwd[|cwd| - 1] == '/' {
      assert w[|cwd| - 1] == '/';
    } else {
      assert w[|cwd|] == '/';
    }
  }

  lemma {:induction false} WhereaboutsAt(p: seq<Node>, i: nat)
    requires i <= |p| && CdsSayWhere(p, i)
    ensures Whereabouts(DirectoryAt(p, i), CdBefore(p, i))
  {
    if i > 0 {
      WhereaboutsAt(p, i - 1);
      if p[i - 1].Chdir? { CdMoves(DirectoryAt(p, i - 1), p[i - 1].dir.value); }
    }
  }

  lemma {:induction false} SinkOfFits(r: Redirect)
    ensures SinkFits(SinkOf(r), r)
  {
  }

  /** The launch that the program makes of node i, given where the directory changes have led. */
  lemma {:induction false} LaunchOfFits(p: seq<Node>, i: nat, n: nat)
    requires i < |p| && p[i].Command? && (PipeBefore(p, i) ==> n > 0)
    requires CdsSayWhere(p, i)
    ensures LaunchFits(LaunchOf(p[i], DirectoryAt(p, i), n, PipeBefore(p, i)), p, i, n)
  {
    WhereaboutsAt(p, i);
    SinkOfFits(p[i].stdout);
    SinkOfFits(p[i].stderr);
  }

  /** From one command or directory change to the next. */
  lemma {:induction false} NextNode(p: seq<Node>, i: nat)
    requires i + 2 <= |p| && Rest(p[i..]) && |p[i..]| > 1
    ensures var c := if p[i].Command? then 1 else 0;
      CommandsBefore(p, i + 2) == CommandsBefore(p, i) + c
    ensures p[i].Command? ==> (PipeBefore(p, i + 2) <==> p[i + 1].Pipe?) && DirectoryAt(p, i + 2) == DirectoryAt(p, i)
    ensures CdsSayWhere(p, i + 2) <==> CdsSayWhere(p, i) && (p[i].Chdir? ==> p[i].dir.Some?)
    ensures p[i].Chdir? ==> (PipeBefore(p, i + 2) <==> PipeBefore(p, i))
    ensures p[i].Chdir? && p[i].dir.Some? ==> DirectoryAt(p, i + 2) == PathJoin(DirectoryAt(p, i), p[i].dir.value)
  {
    assert p[i..][0] == p[i] && p[i..][1] == p[i + 1];
    assert CommandsBefore(p, i + 2) == CommandsBefore(p, i + 1);
    assert DirectoryAt(p, i + 2) == DirectoryAt(p, i + 1);
    assert PipeBefore(p, i + 2) == (p[i + 1].Pipe? || PipeBefore(p, i + 1));
    assert CdsSayWhere(p, i + 2) == CdsSayWhere(p, i + 1);
  }

  /** The launches are those of the commands from number j on, and start processes from number n on. */
  ghost predicate AllFit(ls: seq<Launch>, p: seq<Node>, j: nat, n: nat) {
    forall x :: 0 <= x < |ls| ==> LaunchOfCommand(ls[x], p, j + x, n + x)
  }

  lemma {:induction false} OneMoreFits(l: Launch, more: seq<Launch>, p: seq<Node>, j: nat, n: nat)
    requires LaunchOfCommand(l, p, j, n) && AllFit(more, p, j + 1, n + 1)
    ensures AllFit([l] + more, p, j, n) && AllFit([l], p, j, n)
  {
    var ls := [l] + more;
    forall x | 0 <= x < |ls| ensures LaunchOfCommand(ls[x], p, j + x, n + x) {
      if x > 0 {
        assert LaunchOfCommand(more[x - 1], p, j + 1 + (x - 1), n + 1 + (x - 1));
      }
    }
  }

  /** Where the specification goes from a node, in terms of launches. */
  lemma {:induction false} UnfoldLaunches(q: seq<Node>, cwd: string, n: nat, piped: bool, codes: seq<int>)
    requires Rest(q) && (piped ==> n > 0)
    ensures var ls := RunSpec(q, cwd, n, piped, codes).launches;
      if q[0].Chdir? then
        ls == if |q| > 1 && q[0].dir.Some? then RunSpec(q[2..], PathJoin(cwd, q[0].dir.value), n, piped, codes).launches else []
      else
        var l := LaunchOf(q[0], cwd, n, piped);
        ls == [l] || (|q| > 1 && ls == [l] + RunSpec(q[2..], cwd, n + 1, q[1].Pipe?, codes).launches)
  {
  }

  /** The run has come to node i: q is left, and this is the directory, the number of the command, and whether it is piped into. */
  ghost predicate Place(p: seq<Node>, i: nat, q: seq<Node>, cwd: string, j: nat, piped: bool) {
    && i <= |p| && q == p[i..] && cwd == DirectoryAt(p, i) && j == CommandsBefore(p, i)
    && (piped <==> PipeBefore(p, i)) && CdsSayWhere(p, i)
  }

  lemma {:induction false} NextPlace(p: seq<Node>, i: nat, q: seq<Node>, cwd: string, j: nat, piped: bool)
    requires Place(p, i, q, cwd, j, piped) && Rest(q) && |q| > 1 && (q[0].Chdir? ==> q[0].dir.Some?)
    ensures if q[0].Chdir? then Place(p, i + 2, q[2..], PathJoin(cwd, q[0].dir.value), j, piped)
            else Place(p, i + 2, q[2..], cwd, j + 1, q[1].Pipe?)
  {
    NextNode(p, i);
    assert q[2..] == p[i + 2..] && q[1] == p[i + 1] && q[0] == p[i];
  }

  /** The launch of node i, alone and before those of later commands. */
  lemma {:induction false} FromCommand(p: seq<Node>, i: nat, q: seq<Node>, cwd: string, j: nat, piped: bool, n: nat, more: seq<Launch>)
    requires Place(p, i, q, cwd, j, piped) && q != [] && q[0].Command? && (piped ==> n > 0)
    requires AllFit(more, p, j + 1, n + 1)
    ensures var l := LaunchOf(q[0], cwd, n, piped);
      AllFit([l] + more, p, j, n) && AllFit([l], p, j, n)
  {
    assert q[0] == p[i];
    LaunchOfFits(p, i, n);
    assert IsCommandNo(p, i, j);
    OneMoreFits(LaunchOf(q[0], cwd, n, piped), more, p, j, n);
  }

  /** The launches from node i on, k processes having been started before the run. */
  lemma {:induction false} LaunchesFitFrom(p: seq<Node>, i: nat, q: seq<Node>, cwd: string, j: nat, piped: bool,
                                           k: nat, codes: seq<int>)
    requires Place(p, i, q, cwd, j, piped) && Rest(q) && (piped ==> k + j > 0)
    ensures AllFit(RunSpec(q, cwd, k + j, piped, codes).launches, p, j, k + j)
    decreases |q|
  {
    UnfoldLaunches(q, cwd, k + j, piped, codes);
    if q[0].Chdir? {
      if |q| > 1 && q[0].dir.Some? {
        NextPlace(p, i, q, cwd, j, piped);
        LaunchesFitFrom(p, i + 2, q[2..], PathJoin(cwd, q[0].dir.value), j, piped, k, codes);
      }
    } else {
      var more := [];
      if |q| > 1 {
        NextPlace(p, i, q, cwd, j, piped);
        LaunchesFitFrom(p, i + 2, q[2..], cwd, j + 1, q[1].Pipe?, k, codes);
        more := RunSpec(q[2..], cwd, k + j + 1, q[1].Pipe?, codes).launches;
      }
      FromCommand(p, i, q, cwd, j, piped, k + j, more);
    }
  }

  /**
    Whatever a run starts are the first commands of the pipeline, in their order: each with its own
    arguments and assignments, the streams its redirections and the pipe before it say, and in the
    directory that the directory changes before it lead to.
   */
  lemma {:induction false} LaunchesFit(p: seq<Node>, k: nat, codes: seq<int>)
    requires Canonical(p)
    ensures var ls := RunOf(p, k, codes).launches;
      forall j :: 0 <= j < |ls| ==> LaunchOfCommand(ls[j], p, j, k + j)
  {
    CanonicalRest(p);
    assert Place(p, 0, p, ".", 0, false);
    LaunchesFitFrom(p, 0, p, ".", 0, false, k, codes);
    var ls := RunOf(p, k, codes).launches;
    assert AllFit(ls, p, 0, k);
    forall j | 0 <= j < |ls| ensures LaunchOfCommand(ls[j], p, j, k + j) {
      assert LaunchOfCommand(ls[j], p, 0 + j, k + j);
    }
  }

  lemma {:induction false} StatusFrom(p: seq<Node>, cwd: string, k: nat, piped: bool, codes: seq<int>)
    requires Rest(p) && (piped ==> k > 0)
    ensures var r := RunSpec(p, cwd, k, piped, codes);
      r.Returned? ==> r.launches != [] && r.status == CodeAt(codes, k + |r.launches| - 1)
    decreases p
  {
    if p[0].Chdir? {
      if |p| > 1 && p[0].dir.Some? { StatusFrom(p[2..], PathJoin(cwd, p[0].dir.value), k, piped, codes); }
    } else if |p| > 1 {
      StatusFrom(p[2..], cwd, k + 1, p[1].Pipe?, codes);
    }
  }

  /** A run that returns gives what the last process it started returned. */
  lemma {:induction false} StatusIsLast(p: seq<Node>, k: nat, codes: seq<int>)
    requires Canonical(p)
    ensures var r := RunOf(p, k, codes);
      r.Returned? ==> r.launches != [] && (k + |r.launches| <= |codes| ==> r.status == codes[k + |r.launches| - 1])
  {
    CanonicalRest(p);
    StatusFrom(p, ".", k, false, codes);
  }

  // ---------------------------------------------------------------- the files of a launch

  /** One file is opened for each stream that goes to or comes from a file other than the null device. */
  lemma {:induction false} OpensLaw(l: Launch, f: string)
    ensures |OpensOf(l)| ==
      (if l.stdin.ReadFile? then 1 else 0) + (if l.stdout.WriteFile? then 1 else 0) + (if l.stderr.WriteFile? then 1 else 0)
    ensures f in OpensOf(l) <==> l.stdin == ReadFile(f) || l.stdout == WriteFile(f) || l.stderr == WriteFile(f)
  {
  }

  /** Launch after launch, in their order. */
  lemma {:induction false} OpensInOrder(a: seq<Launch>, b: seq<Launch>)
    ensures AllOpens(a + b) == AllOpens(a) + AllOpens(b)
  {
    if b == [] {
      assert a + b == a;
    } else {
      var init, l := b[..|b| - 1], b[|b| - 1];
      OpensInOrder(a, init);
      AllOpensAppend(a + init, l);
      assert a + init + [l] == a + b;
      assert AllOpens(a) + AllOpens(init) + OpensOf(l) == AllOpens(a) + (AllOpens(init) + OpensOf(l));
    }
  }

  lemma {:induction false} OpensOfOne(l: Launch)
    ensures AllOpens([l]) == OpensOf(l)
  {
    assert [l][..0] == [];
  }

  // ---------------------------------------------------------------- a cd that cannot be executed

  ghost predicate BadCdAt(p: seq<Node>, i: nat) {
    && i < |p| && p[i].Chdir? && (i == |p| - 1 || p[i].dir.None?)
    && forall x :: 0 <= x < i && p[x].Chdir? ==> p[x].dir.Some?
  }

  /** The pipeline up to a bad cd, with a good one and a command in the place of all that follows. */
  function Mended(p: seq<Node>, i: nat, dir: string, cmd: Node): seq<Node>
    requires i <= |p|
  {
    p[..i] + [Chdir(Some(dir)), And, cmd]
  }

  lemma {:induction false} MendedRest(p: seq<Node>, i: nat, dir: string, cmd: Node)
    requires i >= 2 && i <= |p|
    ensures var q := Mended(p, i, dir, cmd); q[0] == p[0] && q[1] == p[1] && q[2..] == Mended(p[2..], i - 2, dir, cmd)
  {
    assert p[..i][2..] == p[2..][..i - 2];
  }

  /**
    A run that comes to the first bad cd raises an exception, having started what it would have
    started before a good one; a run that does not come to it returns as if the cd were good.
   */
  lemma {:induction false} RaisesAtBadCd(p: seq<Node>, i: nat, cwd: string, k: nat, piped: bool, codes: seq<int>,
                                         dir: string, cmd: Node)
    requires Rest(p) && BadCdAt(p, i) && (piped ==> k > 0)
    requires dir != "&&" && CommandOk(cmd) && cmd.stdout != ToPipe
    ensures Rest(Mended(p, i, dir, cmd))
    ensures var good := RunSpec(Mended(p, i, dir, cmd), cwd, k, piped, codes);
      var n := CommandsBefore(p, i);
      && good.Returned? && |good.launches| <= n + 1
      && RunSpec(p, cwd, k, piped, codes) == if |good.launches| == n + 1 then Raised(good.launches[..n]) else good
    decreases p
  {
    var q := Mended(p, i, dir, cmd);
    if i == 0 {
      assert q[2..] == [cmd];
      assert Rest([cmd]);
    } else {
      EvenPlace(p, i);
      MendedRest(p, i, dir, cmd);
      ShiftBadCd(p, i);
      CommandsShift(p, i);
      if p[0].Chdir? {
        RaisesAtBadCd(p[2..], i - 2, PathJoin(cwd, p[0].dir.value), k, piped, codes, dir, cmd);
      } else {
        RaisesAtBadCd(p[2..], i - 2, cwd, k + 1, p[1].Pipe?, codes, dir, cmd);
      }
    }
  }

  /** Operators stand at the odd places. */
  lemma {:induction false} EvenPlace(p: seq<Node>, i: nat)
    requires Rest(p) && 0 < i < |p| && (p[i].Command? || p[i].Chdir?)
    ensures i >= 2
  {
  }

  lemma {:induction false} ShiftBadCd(p: seq<Node>, i: nat)
    requires BadCdAt(p, i) && i >= 2
    ensures BadCdAt(p[2..], i - 2)
  {
    var q := p[2..];
    assert q[i - 2] == p[i];
    forall x | 0 <= x < i - 2 && q[x].Chdir? ensures q[x].dir.Some? {
      assert q[x] == p[x + 2];
    }
  }

  lemma {:induction false} CommandsShift(p: seq<Node>, i: nat)
    requires 2 <= i <= |p|
    ensures CommandsBefore(p, i) == CommandsBefore(p[2..], i - 2) + CommandsBefore(p, 2)
  {
    if i > 2 {
      CommandsShift(p, i - 1);
      assert p[2..][i - 3] == p[i - 1];
    }
  }
}
