/**
  Running a parsed pipeline: process groups, short-circuiting, the accumulated directory, and
  the files and processes it must not leave behind.

  The operating system is a Host that logs what is started, waited for, opened and closed.
  The exit codes of the processes are arbitrary.
 */
module ShellRunner {
  import opened Wrappers
  import opened ShellParser
  import opened ShellSyntax

  datatype Source = InheritIn | ReadFile(name: string) | PipeFrom(proc: nat)

  datatype Sink = InheritOut | WriteFile(name: string) | NullDevice | NewPipe | SameAsStdout

  datatype Launch = Launch(argv: seq<string>, stdin: Source, stdout: Sink, stderr: Sink,
                           env: map<string, string>, cwd: Option<string>)

  datatype File = DevNull | Handle(id: nat)

  // ---------------------------------------------------------------- exit codes

  /** The exit code of the i-th process to be started; codes may be any integers. */
  function CodeAt(codes: seq<int>, i: nat): int {
    if i < |codes| then codes[i] else 0
  }

  // ---------------------------------------------------------------- one command

  predicate IsNullName(name: string) {
    name == "NUL:" || name == "/dev/null"
  }

  function SinkOf(r: Redirect): Sink {
    match r
    case Inherited => InheritOut
    case ToFile(name) => if IsNullName(name) then NullDevice else WriteFile(name)
    case ToPipe => NewPipe
    case ToStdout => SameAsStdout
  }

  /** os.path.join on POSIX. */
  function PathJoin(a: string, b: string): string {
    if b != "" && b[0] == '/' then b
    else if a == "" || a[|a| - 1] == '/' then a + b
    else a + "/" + b
  }

  /** The k-th process to be started runs cmd; piped tells that its predecessor writes into it. */
  function LaunchOf(cmd: Node, cwd: string, k: nat, piped: bool): Launch
    requires cmd.Command? && (piped ==> k > 0)
  {
    Launch(cmd.argv,
           if piped then PipeFrom(k - 1) else if cmd.stdin.Some? then ReadFile(cmd.stdin.value) else InheritIn,
           SinkOf(cmd.stdout), SinkOf(cmd.stderr), cmd.env,
           if cwd == "." then None else Some(cwd))
  }

  /** The files that have to be opened for a launch. */
  function OpensOf(l: Launch): seq<string> {
    (if l.stdin.ReadFile? then [l.stdin.name] else [])
    + (if l.stdout.WriteFile? then [l.stdout.name] else [])
    + (if l.stderr.WriteFile? then [l.stderr.name] else [])
  }

  ghost function AllOpens(ls: seq<Launch>): seq<string> {
    if ls == [] then [] else AllOpens(ls[..|ls| - 1]) + OpensOf(ls[|ls| - 1])
  }

  // ---------------------------------------------------------------- what run does, as a function

  /** What is left of a canonical pipeline after some of its pairs. */
  ghost predicate Rest(p: seq<Node>) {
    p != [] && if |p| == 1 then LastOk(p[0]) else |p| >= 3 && PairOk(p[0], p[1]) && Rest(p[2..])
  }

  lemma {:induction false} CanonicalRest(p: seq<Node>)
    requires Canonical(p)
    ensures Rest(p)
    decreases p
  {
    CanonicalAt(p, 0);
    if |p| > 1 {
      var q := p[2..];
      PairsDrop(p[..|p| - 1]);
      assert p[..|p| - 1][2..] == q[..|q| - 1];
      assert q[|q| - 1] == p[|p| - 1];
      CanonicalRest(q);
    }
  }

  lemma {:induction false} PairsDrop(p: seq<Node>)
    requires PairsOk(p) && p != []
    ensures |p| >= 2 && PairsOk(p[2..])
  {
    var n := |p| - 2;
    if n > 0 {
      PairsDrop(p[..n]);
      assert p[2..][..n - 2] == p[..n][2..];
    } else {
      assert p[2..] == [];
    }
  }

  datatype Outcome = Returned(status: int, launches: seq<Launch>) | Raised(launches: seq<Launch>)

  function After(ls: seq<Launch>, r: Outcome): Outcome {
    r.(launches := ls + r.launches)
  }

  ghost function RunSpec(p: seq<Node>, cwd: string, k: nat, piped: bool, codes: seq<int>): Outcome
    requires Rest(p) && (piped ==> k > 0)
    decreases |p|
  {
    if p[0].Chdir? then
      if |p| == 1 || p[0].dir.None? then Raised([])
      else RunSpec(p[2..], PathJoin(cwd, p[0].dir.value), k, piped, codes)
    else
      var ls := [LaunchOf(p[0], cwd, k, piped)];
      var code := CodeAt(codes, k);
      if |p| == 1 || (p[1].Or? && code == 0) || (p[1].And? && code != 0) then Returned(code, ls)
      else After(ls, RunSpec(p[2..], cwd, k + 1, p[1].Pipe?, codes))
  }

  /** The whole run of a canonical pipeline, when k processes have been started before. */
  ghost function RunOf(p: seq<Node>, k: nat, codes: seq<int>): Outcome
    requires Canonical(p)
  {
    CanonicalRest(p);
    RunSpec(p, ".", k, false, codes)
  }

  // ---------------------------------------------------------------- the host

  ghost function Range(n: nat): seq<nat> {
    if n == 0 then [] else Range(n - 1) + [n - 1]
  }

  class Host {
    const codes: seq<int>
    var started: seq<Launch>
    var waited: seq<nat>
    var openedFiles: seq<string>
    var closedFiles: seq<nat>

    constructor (codes: seq<int>)
      ensures this.codes == codes && started == [] && Idle()
    {
      this.codes := codes;
      started, waited, openedFiles, closedFiles := [], [], [], [];
    }

    /** Every started process has been waited for, and every opened file closed, once and in order. */
    ghost predicate Idle()
      reads this
    {
      waited == Range(|started|) && closedFiles == Range(|openedFiles|) && openedFiles == AllOpens(started)
    }

    method Open(name: string) returns (f: File)
      modifies this`openedFiles
      ensures openedFiles == old(openedFiles) + [name] && f == Handle(|old(openedFiles)|)
    {
      f := Handle(|openedFiles|);
      openedFiles := openedFiles + [name];
    }

    method OpenOutFile(name: string) returns (f: File)
      modifies this`openedFiles
      ensures if IsNullName(name) then f == DevNull && openedFiles == old(openedFiles)
              else openedFiles == old(openedFiles) + [name] && f == Handle(|old(openedFiles)|)
    {
      if IsNullName(name) {
        f := DevNull;
      } else {
        f := Open(name);
      }
    }

    method Popen(l: Launch) returns (proc: nat)
      modifies this`started
      ensures started == old(started) + [l] && proc == |old(started)|
    {
      proc := |started|;
      started := started + [l];
    }

    method Wait(proc: nat) returns (code: int)
      modifies this`waited
      ensures waited == old(waited) + [proc] && code == CodeAt(codes, proc)
    {
      waited := waited + [proc];
      code := CodeAt(codes, proc);
    }

    method Close(f: File)
      requires f.Handle?
      modifies this`closedFiles
      ensures closedFiles == old(closedFiles) + [f.id]
    {
      closedFiles := closedFiles + [f.id];
    }
  }

  // ---------------------------------------------------------------- the program

  /** The handles among the files to close; the null device is not closed. */
  ghost function Handles(files: seq<File>): seq<nat> {
    if files == [] then [] else
    Handles(files[..|files| - 1]) + (if files[|files| - 1].Handle? then [files[|files| - 1].id] else [])
  }

  lemma {:induction false} HandlesAppend(files: seq<File>, f: File)
    ensures Handles(files + [f]) == Handles(files) + (if f.Handle? then [f.id] else [])
  {
    assert (files + [f])[..|files|] == files;
  }

  method CloseAll(host: Host, files: seq<File>)
    modifies host`closedFiles
    ensures host.closedFiles == old(host.closedFiles) + Handles(files)
  {
    for i := 0 to |files|
      invariant host.closedFiles == old(host.closedFiles) + Handles(files[..i])
    {
      assert files[..i + 1][..i] == files[..i];
      if files[i] != DevNull {
        host.Close(files[i]);
      }
    }
    assert files[..|files|] == files;
  }

  /** The files opened so far are those closed and those still to close. */
  ghost predicate FilesOpen(host: Host, files: seq<File>)
    reads host
  {
    host.closedFiles + Handles(files) == Range(|host.openedFiles|)
  }

  /** Opening the file a stream is redirected to, if it is. */
  method OpenSink(host: Host, r: Redirect, files0: seq<File>) returns (files: seq<File>)
    requires FilesOpen(host, files0)
    modifies host`openedFiles
    ensures FilesOpen(host, files)
    ensures host.openedFiles == old(host.openedFiles) + (if SinkOf(r).WriteFile? then [SinkOf(r).name] else [])
  {
    files := files0;
    if r.ToFile? {
      var f := host.OpenOutFile(r.file);
      HandlesAppend(files, f);
      files := files + [f];
    }
  }

  method OpenSource(host: Host, file: string, files0: seq<File>) returns (files: seq<File>)
    requires FilesOpen(host, files0)
    modifies host`openedFiles
    ensures FilesOpen(host, files) && host.openedFiles == old(host.openedFiles) + [file]
  {
    var f := host.Open(file);
    HandlesAppend(files0, f);
    files := files0 + [f];
  }

  /** Opening the files of a command and starting its process. */
  method StartCommand(host: Host, cmd: Node, cwd: string, piped: bool, pipedCommands: seq<nat>, files0: seq<File>)
    returns (proc: nat, files: seq<File>)
    requires cmd.Command?
    requires piped ==> pipedCommands != [] && pipedCommands[|pipedCommands| - 1] + 1 == |host.started|
    requires host.openedFiles == AllOpens(host.started) && FilesOpen(host, files0)
    modifies host`started, host`openedFiles
    ensures proc == |old(host.started)|
    ensures host.started == old(host.started) + [LaunchOf(cmd, cwd, |old(host.started)|, piped)]
    ensures host.openedFiles == AllOpens(host.started) && FilesOpen(host, files)
  {
    files := files0;
    var stdin := InheritIn;
    if piped {
      stdin := PipeFrom(pipedCommands[|pipedCommands| - 1]);
    } else if cmd.stdin.Some? {
      files := OpenSource(host, cmd.stdin.value, files);
      stdin := ReadFile(cmd.stdin.value);
    }
    files := OpenSink(host, cmd.stdout, files);
    files := OpenSink(host, cmd.stderr, files);
    var l := Launch(cmd.argv, stdin, SinkOf(cmd.stdout), SinkOf(cmd.stderr), cmd.env,
                    if cwd == "." then None else Some(cwd));
    Assoc(AllOpens(old(host.started)), if stdin.ReadFile? then [stdin.name] else [],
          if l.stdout.WriteFile? then [l.stdout.name] else [], if l.stderr.WriteFile? then [l.stderr.name] else []);
    AllOpensAppend(old(host.started), l);
    proc := host.Popen(l);
  }

  lemma {:induction false} Assoc<T>(o: seq<T>, a: seq<T>, b: seq<T>, c: seq<T>)
    ensures o + a + b + c == o + (a + (b + c)) && o + [] == o
  {
  }

  lemma {:induction false} AllOpensAppend(ls: seq<Launch>, l: Launch)
    ensures AllOpens(ls + [l]) == AllOpens(ls) + OpensOf(l)
    ensures OpensOf(l) == (if l.stdin.ReadFile? then [l.stdin.name] else [])
      + ((if l.stdout.WriteFile? then [l.stdout.name] else []) + (if l.stderr.WriteFile? then [l.stderr.name] else []))
  {
    assert (ls + [l])[..|ls|] == ls;
  }

  /** Waiting for the processes of a group.  Its status is that of its last process. */
  method ExecPipedCommands(host: Host, commands: seq<nat>) returns (retval: int)
    requires commands != []
    modifies host`waited
    ensures host.waited == old(host.waited) + commands
    ensures retval == CodeAt(host.codes, commands[|commands| - 1])
  {
    var retvals: seq<int> := [];
    for i := 0 to |commands|
      invariant host.waited == old(host.waited) + commands[..i]
      invariant |retvals| == i && forall j :: 0 <= j < i ==> retvals[j] == CodeAt(host.codes, commands[j])
    {
      var r := host.Wait(commands[i]);
      retvals := retvals + [r];
      assert commands[..i + 1] == commands[..i] + [commands[i]];
    }
    assert commands[..|commands|] == commands;
    retval := 0;
    for i := 0 to |retvals|
      invariant retval == 0 && forall j :: 0 <= j < i ==> retvals[j] == 0
    {
      if retvals[i] != 0 {
        retval := retvals[|retvals| - 1];
        break;
      }
    }
  }

  datatype RunResult = Status(status: int) | Exception

  /** The processes of the current group are those started and not yet waited for. */
  ghost predicate GroupOpen(host: Host, pipedCommands: seq<nat>, files: seq<File>)
    reads host
  {
    && host.waited + pipedCommands == Range(|host.started|)
    && FilesOpen(host, files) && host.openedFiles == AllOpens(host.started)
  }

  /** Waiting for the group and closing its files. */
  method FinishGroup(host: Host, pipedCommands: seq<nat>, files: seq<File>) returns (retval: int)
    requires pipedCommands != [] && GroupOpen(host, pipedCommands, files)
    modifies host`waited, host`closedFiles
    ensures host.started != [] && host.Idle() && retval == CodeAt(host.codes, |host.started| - 1)
  {
    LastPiped(host, pipedCommands, files);
    retval := ExecPipedCommands(host, pipedCommands);
    CloseAll(host, files);
  }

  lemma {:induction false} RangeAt(n: nat)
    ensures |Range(n)| == n && forall i :: 0 <= i < n ==> Range(n)[i] == i
  {
    if n > 0 { RangeAt(n - 1); }
  }

  /** What is done and what is still to do together make up the whole run e. */
  ghost predicate Underway(host: Host, started0: seq<Launch>, e: Outcome, pipeline: seq<Node>, cwd: string,
                           piped: bool, pipedCommands: seq<nat>, files: seq<File>)
    reads host
  {
    && Rest(pipeline) && GroupOpen(host, pipedCommands, files)
    && (piped <==> pipedCommands != []) && (piped ==> host.started != []) && (!piped ==> files == [])
    && started0 <= host.started
    && e == After(host.started[|started0|..],
                  RunSpec(pipeline, cwd, |host.started|, piped, host.codes))
  }

  /** The last of the open processes is the last one started. */
  lemma {:induction false} LastPiped(host: Host, pipedCommands: seq<nat>, files: seq<File>)
    requires GroupOpen(host, pipedCommands, files) && pipedCommands != []
    ensures host.started != [] && pipedCommands[|pipedCommands| - 1] == |host.started| - 1
  {
    RangeAt(|host.started|);
    var all := host.waited + pipedCommands;
    assert all[|all| - 1] == pipedCommands[|pipedCommands| - 1];
  }

  lemma {:induction false} IdleGroup(host: Host)
    requires host.Idle()
    ensures GroupOpen(host, [], [])
  {
    assert host.waited + [] == host.waited && host.closedFiles + [] == host.closedFiles;
  }

  lemma {:induction false} StartedOne(started0: seq<Launch>, before: seq<Launch>, l: Launch, r: Outcome)
    requires started0 <= before
    ensures started0 <= before + [l]
    ensures After(before[|started0|..], After([l], r)) == After((before + [l])[|started0|..], r)
    ensures before + [l] == started0 + (before[|started0|..] + [l])
  {
    assert before[|started0|..] + ([l] + r.launches) == (before + [l])[|started0|..] + r.launches;
  }

  /** The next command joins the open group. */
  method StartInGroup(host: Host, cmd: Node, cwd: string, piped: bool, pipedCommands0: seq<nat>, files0: seq<File>)
    returns (pipedCommands: seq<nat>, files: seq<File>)
    requires cmd.Command? && GroupOpen(host, pipedCommands0, files0) && (piped ==> pipedCommands0 != [])
    requires piped ==> host.started != []
    modifies host`started, host`openedFiles
    ensures host.started == old(host.started) + [LaunchOf(cmd, cwd, |old(host.started)|, piped)]
    ensures pipedCommands != [] && GroupOpen(host, pipedCommands, files)
  {
    if piped {
      LastPiped(host, pipedCommands0, files0);
    }
    var proc;
    proc, files := StartCommand(host, cmd, cwd, piped, pipedCommands0, files0);
    pipedCommands := pipedCommands0 + [proc];
    assert host.waited + pipedCommands == (host.waited + pipedCommands0) + [proc];
  }

  /** After one more launch the run goes on with the rest of the pipeline. */
  lemma {:induction false} GoOn(host: Host, started0: seq<Launch>, before: seq<Launch>, l: Launch, e: Outcome,
                                rest: seq<Node>, cwd: string, piped: bool, pipedCommands: seq<nat>, files: seq<File>)
    requires Rest(rest) && GroupOpen(host, pipedCommands, files)
    requires (piped <==> pipedCommands != []) && (!piped ==> files == [])
    requires started0 <= before && host.started == before + [l]
    requires e == After(before[|started0|..],
      After([l], RunSpec(rest, cwd, |host.started|, piped, host.codes)))
    ensures Underway(host, started0, e, rest, cwd, piped, pipedCommands, files)
  {
    StartedOne(started0, before, l, RunSpec(rest, cwd, |host.started|, piped, host.codes));
  }

  /** What follows a command: nothing, a pipe, or an operator that may short-circuit. */
  method FollowUp(host: Host, pipeline0: seq<Node>, pipedCommands0: seq<nat>, files0: seq<File>)
    returns (returned: bool, retval: int, pipeline: seq<Node>, piped: bool, pipedCommands: seq<nat>, files: seq<File>)
    requires Rest(pipeline0) && pipedCommands0 != [] && GroupOpen(host, pipedCommands0, files0) && host.started != []
    modifies host`waited, host`closedFiles
    ensures var code := CodeAt(host.codes, |host.started| - 1);
      returned <==> |pipeline0| == 1 || (pipeline0[1].Or? && code == 0) || (pipeline0[1].And? && code != 0)
    ensures returned ==> host.Idle() && retval == CodeAt(host.codes, |host.started| - 1)
    ensures !returned ==> pipeline == pipeline0[2..] && piped == pipeline0[1].Pipe?
    ensures !returned ==> GroupOpen(host, pipedCommands, files) && (piped <==> pipedCommands != []) && (!piped ==> files == [])
  {
    returned, retval, pipeline, piped, pipedCommands, files := true, 0, pipeline0[1..], false, [], [];
    if pipeline == [] {
      retval := FinishGroup(host, pipedCommands0, files0);
      return;
    }
    var nextNode := pipeline[0];
    pipeline := pipeline[1..];
    if nextNode.Pipe? {
      returned, piped, pipedCommands, files := false, true, pipedCommands0, files0;
    } else {
      retval := FinishGroup(host, pipedCommands0, files0);
      IdleGroup(host);
      if nextNode.Or? {
        returned := retval == 0;
      } else {
        returned := retval != 0;
      }
    }
  }

  /** One command: started, and if its group ends here, waited for with its group. */
  method RunCommand(host: Host, ghost started0: seq<Launch>, ghost e: Outcome, pipeline0: seq<Node>, cwd: string,
                    piped0: bool, pipedCommands0: seq<nat>, files0: seq<File>)
    returns (returned: bool, retval: int, pipeline: seq<Node>, piped: bool, pipedCommands: seq<nat>, files: seq<File>)
    requires Underway(host, started0, e, pipeline0, cwd, piped0, pipedCommands0, files0) && pipeline0[0].Command?
    modifies host
    ensures returned ==> host.Idle() && host.started == started0 + e.launches && e == Returned(retval, e.launches)
    ensures !returned ==> |pipeline| < |pipeline0| && Underway(host, started0, e, pipeline, cwd, piped, pipedCommands, files)
  {
    ghost var k, before := |host.started|, host.started;
    ghost var l := LaunchOf(pipeline0[0], cwd, k, piped0);
    StartedOne(started0, before, l, e);
    pipedCommands, files := StartInGroup(host, pipeline0[0], cwd, piped0, pipedCommands0, files0);
    returned, retval, pipeline, piped, pipedCommands, files := FollowUp(host, pipeline0, pipedCommands, files);
    if !returned {
      GoOn(host, started0, before, l, e, pipeline, cwd, piped, pipedCommands, files);
    }
  }

  /** Running the pipeline: the loop over its nodes, with the state, directory and open group it carries. */
  method Run(host: Host, nodes: seq<Node>) returns (r: RunResult)
    requires Canonical(nodes) && host.Idle()
    modifies host
    ensures var k := |old(host.started)|;
      var e := RunOf(nodes, k, host.codes);
      && host.started == old(host.started) + e.launches
      && (if e.Returned? then r == Status(e.status) && host.Idle() else r == Exception)
  {
    var pipeline, files, pipedCommands, piped, cwd := nodes, [], [], false, ".";
    ghost var started0 := host.started;
    ghost var e := RunOf(nodes, |started0|, host.codes);
    CanonicalRest(nodes);
    IdleGroup(host);
    while pipeline != []
      invariant Underway(host, started0, e, pipeline, cwd, piped, pipedCommands, files)
      decreases |pipeline|
    {
      var node := pipeline[0];
      if node.Chdir? {
        if |pipeline| == 1 || node.dir.None? {
          return Exception;
        }
        pipeline := pipeline[2..];
        cwd := PathJoin(cwd, node.dir.value);
      } else {
        var returned, retval;
        returned, retval, pipeline, piped, pipedCommands, files :=
          RunCommand(host, started0, e, pipeline, cwd, piped, pipedCommands, files);
        if returned {
          return Status(retval);
        }
      }
    }
    assert false;
  }
}
