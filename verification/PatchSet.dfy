/**
  Unified diffs: the lines of a patch file, what the parser makes of them, and how the result
  is written back.
 */
module PatchSet {
  import opened Wrappers

  datatype Result<T> = Ok(value: T) | Rejected

  datatype Line = Src(text: string) | Dst(text: string) | Both(text: string)

  datatype Chunk = Chunk(srcPos: nat, dstPos: nat, lines: seq<Line>)

  datatype Patch = Patch(src: string, dst: string, chunks: seq<Chunk>)

  // ---------------------------------------------------------------- the patterns

  predicate OneLine(s: string) {
    forall i :: 0 <= i < |s| ==> s[i] != '\n'
  }

  /** What (.*)$ captures: everything, but for a newline that ends the line. */
  function RestOfLine(s: string): Option<string> {
    if OneLine(s) then Some(s)
    else if s[|s| - 1] == '\n' && OneLine(s[..|s| - 1]) then Some(s[..|s| - 1])
    else None
  }

  function After(prefix: string, line: string): Option<string> {
    if prefix <= line then RestOfLine(line[|prefix|..]) else None
  }

  predicate IsDigit(c: char) {
    '0' <= c <= '9'
  }

  function DigitCount(s: string): (n: nat)
    ensures n <= |s|
  {
    if s != "" && IsDigit(s[0]) then 1 + DigitCount(s[1..]) else 0
  }

  function DigitValue(c: char): nat
    requires IsDigit(c)
  {
    (c - '0') as nat
  }

  function ToInt(s: string): nat
    requires forall i :: 0 <= i < |s| ==> IsDigit(s[i])
  {
    if s == "" then 0 else 10 * ToInt(s[..|s| - 1]) + DigitValue(s[|s| - 1])
  }

  lemma {:induction false} DigitsAreDigits(s: string)
    ensures forall i :: 0 <= i < DigitCount(s) ==> IsDigit(s[i])
  {
    if s != "" && IsDigit(s[0]) {
      DigitsAreDigits(s[1..]);
    }
  }

  /** A number of at least one digit at the front of s, and what follows the text after it. */
  function Number(s: string, after: string): Option<(nat, string)> {
    var n := DigitCount(s);
    DigitsAreDigits(s);
    if n > 0 && after <= s[n..] then Some((ToInt(s[..n]), s[n + |after|..])) else None
  }

  /** The four numbers of a chunk header; text may follow the closing signs. */
  function Header(line: string): Option<(nat, nat, nat, nat)> {
    if !("@@ -" <= line) then None else
    var a := Number(line[4..], ",");
    if a.None? then None else
    var b := Number(a.value.1, " +");
    if b.None? then None else
    var c := Number(b.value.1, ",");
    if c.None? then None else
    var d := Number(c.value.1, " @@");
    if d.None? then None else
    Some((a.value.0, b.value.0, c.value.0, d.value.0))
  }

  // ---------------------------------------------------------------- parsing, as a function

  /** The line goes to the newest chunk of all, which may belong to a patch before the newest. */
  function AddLine(patches: seq<Patch>, l: Line): Result<seq<Patch>> {
    if patches == [] then Rejected else
    var n := |patches| - 1;
    var p := patches[n];
    if p.chunks != [] then
      var m := |p.chunks| - 1;
      var c := p.chunks[m];
      Ok(patches[..n] + [p.(chunks := p.chunks[..m] + [c.(lines := c.lines + [l])])])
    else
      match AddLine(patches[..n], l)
      case Rejected => Rejected
      case Ok(before) => Ok(before + [p])
  }

  function Step(patches: seq<Patch>, line: string): Result<seq<Patch>> {
    var n := |patches| - 1;
    var src := After("--- ", line);
    if src.Some? then Ok(patches + [Patch(src.value, "", [])]) else
    var dst := After("+++ ", line);
    if dst.Some? then
      if n < 0 then Rejected else Ok(patches[..n] + [patches[n].(dst := dst.value)])
    else
    var header := Header(line);
    if header.Some? then
      if n < 0 then Rejected
      else Ok(patches[..n] + [patches[n].(chunks := patches[n].chunks + [Chunk(header.value.0, header.value.2, [])])])
    else if After("-", line).Some? then AddLine(patches, Src(After("-", line).value))
    else if After("+", line).Some? then AddLine(patches, Dst(After("+", line).value))
    else if After(" ", line).Some? then AddLine(patches, Both(After(" ", line).value))
    else Rejected
  }

  function Feed(patches: seq<Patch>, lines: seq<string>): Result<seq<Patch>>
    decreases lines
  {
    if lines == [] then Ok(patches) else
    match Step(patches, lines[0])
    case Rejected => Rejected
    case Ok(more) => Feed(more, lines[1..])
  }

  function Parse(lines: seq<string>): Result<seq<Patch>> {
    Feed([], lines)
  }

  // ---------------------------------------------------------------- writing

  function Show(n: nat): string {
    if n < 10 then [('0' as int + n) as char] else Show(n / 10) + [('0' as int + n % 10) as char]
  }

  predicate IsSrc(l: Line) {
    l.Src? || l.Both?
  }

  predicate IsDst(l: Line) {
    l.Dst? || l.Both?
  }

  function SrcLen(lines: seq<Line>): nat {
    if lines == [] then 0 else SrcLen(lines[..|lines| - 1]) + (if IsSrc(lines[|lines| - 1]) then 1 else 0)
  }

  function DstLen(lines: seq<Line>): nat {
    if lines == [] then 0 else DstLen(lines[..|lines| - 1]) + (if IsDst(lines[|lines| - 1]) then 1 else 0)
  }

  function Sign(l: Line): string {
    match l
    case Src(_) => "-"
    case Dst(_) => "+"
    case Both(_) => " "
  }

  function WriteLine(l: Line): string {
    Sign(l) + l.text + "\n"
  }

  function WriteHeader(c: Chunk): string {
    "@@ -" + (Show(c.srcPos) + ("," + (Show(SrcLen(c.lines)) + (" +" + (Show(c.dstPos) + ("," + (Show(DstLen(c.lines)) + " @@\n")))))))
  }

  function WriteLines(lines: seq<Line>): seq<string> {
    if lines == [] then [] else WriteLines(lines[..|lines| - 1]) + [WriteLine(lines[|lines| - 1])]
  }

  function WriteChunk(c: Chunk): seq<string> {
    [WriteHeader(c)] + WriteLines(c.lines)
  }

  function WriteChunks(chunks: seq<Chunk>): seq<string> {
    if chunks == [] then [] else WriteChunks(chunks[..|chunks| - 1]) + WriteChunk(chunks[|chunks| - 1])
  }

  function WritePatch(p: Patch): seq<string> {
    ["--- " + p.src + "\n", "+++ " + p.dst + "\n"] + WriteChunks(p.chunks)
  }

  function Write(patches: seq<Patch>): seq<string> {
    if patches == [] then [] else Write(patches[..|patches| - 1]) + WritePatch(patches[|patches| - 1])
  }

  lemma {:induction false} WriteChunksUpTo(chunks: seq<Chunk>, i: nat)
    requires i < |chunks|
    ensures WriteChunks(chunks[..i + 1]) == WriteChunks(chunks[..i]) + WriteChunk(chunks[i])
    ensures WriteChunks(chunks[..|chunks|]) == WriteChunks(chunks)
  {
    assert chunks[..i + 1][..i] == chunks[..i];
    assert chunks[..|chunks|] == chunks;
  }

  lemma {:induction false} WriteUpTo(patches: seq<Patch>, i: nat)
    requires i < |patches|
    ensures Write(patches[..i + 1]) == Write(patches[..i]) + WritePatch(patches[i])
    ensures Write(patches[..|patches|]) == Write(patches)
  {
    assert patches[..i + 1][..i] == patches[..i];
    assert patches[..|patches|] == patches;
  }

  // ---------------------------------------------------------------- what parsing can return

  /** No text spans lines, and no removed or added line looks like a file header once written. */
  predicate LineOk(l: Line) {
    OneLine(l.text) && (l.Src? ==> !("-- " <= l.text)) && (l.Dst? ==> !("++ " <= l.text))
  }

  predicate ChunkOk(c: Chunk) {
    forall i :: 0 <= i < |c.lines| ==> LineOk(c.lines[i])
  }

  predicate PatchOk(p: Patch) {
    OneLine(p.src) && OneLine(p.dst) && forall i :: 0 <= i < |p.chunks| ==> ChunkOk(p.chunks[i])
  }

  predicate PatchesOk(patches: seq<Patch>) {
    forall i :: 0 <= i < |patches| ==> PatchOk(patches[i])
  }

  lemma {:induction false} AddLineOk(patches: seq<Patch>, l: Line)
    requires PatchesOk(patches) && LineOk(l) && AddLine(patches, l).Ok?
    ensures PatchesOk(AddLine(patches, l).value)
  {
    var n := |patches| - 1;
    if patches[n].chunks == [] {
      AddLineOk(patches[..n], l);
    }
  }

  lemma {:induction false} StepOk(patches: seq<Patch>, line: string)
    requires PatchesOk(patches) && Step(patches, line).Ok?
    ensures PatchesOk(Step(patches, line).value)
  {
    if After("--- ", line).Some? || After("+++ ", line).Some? || Header(line).Some? {
    } else if After("-", line).Some? {
      var l := Src(After("-", line).value);
      NotHeader("--- ", "-", line);
      AddLineOk(patches, l);
    } else if After("+", line).Some? {
      var l := Dst(After("+", line).value);
      NotHeader("+++ ", "+", line);
      AddLineOk(patches, l);
    } else {
      AddLineOk(patches, Both(After(" ", line).value));
    }
  }

  /** A line that is read as changed text is one that its longer header sign did not match. */
  lemma {:induction false} NotHeader(header: string, sign: string, line: string)
    requires |header| == 4 && |sign| == 1 && header[0] == sign[0] && OneLine(header)
    requires After(sign, line).Some? && After(header, line).None?
    ensures OneLine(After(sign, line).value) && !(header[1..] <= After(sign, line).value)
  {
    var text := After(sign, line).value;
    if header[1..] <= text {
      RestOfSuffix(line[1..], 3);
      assert line[4..] == line[1..][3..];
      LongerSign(header, line, text);
    }
  }

  lemma {:induction false} LongerSign(header: string, line: string, text: string)
    requires |header| == 4 && line != "" && line[0] == header[0]
    requires text <= line[1..] && header[1..] <= text
    ensures header <= line
  {
    assert forall i :: 1 <= i < 4 ==> header[i] == header[1..][i - 1] == text[i - 1] == line[1..][i - 1];
  }

  lemma {:induction false} RestOfSuffix(s: string, k: nat)
    requires RestOfLine(s).Some? && k <= |RestOfLine(s).value|
    ensures k <= |s| && RestOfLine(s[k..]).Some?
  {
    if !OneLine(s) {
      assert s[k..][..|s| - k - 1] == s[..|s| - 1][k..];
    }
  }

  lemma {:induction false} ParsedOk(patches: seq<Patch>, lines: seq<string>)
    requires PatchesOk(patches) && Feed(patches, lines).Ok?
    ensures PatchesOk(Feed(patches, lines).value)
    decreases lines
  {
    if lines != [] {
      StepOk(patches, lines[0]);
      ParsedOk(Step(patches, lines[0]).value, lines[1..]);
    }
  }

  // ---------------------------------------------------------------- numbers

  lemma {:induction false} ShowDigits(n: nat)
    ensures Show(n) != "" && forall i :: 0 <= i < |Show(n)| ==> IsDigit(Show(n)[i])
    ensures ToInt(Show(n)) == n
  {
    if n >= 10 {
      ShowDigits(n / 10);
      var s := Show(n);
      assert s[..|s| - 1] == Show(n / 10);
    } else {
      assert Show(n)[..0] == "";
    }
  }

  lemma {:induction false} DigitCountOf(digits: string, rest: string)
    requires (forall i :: 0 <= i < |digits| ==> IsDigit(digits[i])) && (rest != "" ==> !IsDigit(rest[0]))
    ensures DigitCount(digits + rest) == |digits|
  {
    if digits == "" {
      assert digits + rest == rest;
    } else {
      assert (digits + rest)[1..] == digits[1..] + rest;
      DigitCountOf(digits[1..], rest);
    }
  }

  lemma {:induction false} NumberOf(n: nat, after: string, rest: string)
    requires after != "" && !IsDigit(after[0])
    ensures Number(Show(n) + (after + rest), after) == Some((n, rest))
  {
    ShowDigits(n);
    DigitCountOf(Show(n), after + rest);
    var s := Show(n) + (after + rest);
    assert s[..|Show(n)|] == Show(n) && s[|Show(n)|..] == after + rest;
    assert s[|Show(n)| + |after|..] == rest;
  }

  lemma {:induction false} HeaderOf(c: Chunk)
    ensures Header(WriteHeader(c)) == Some((c.srcPos, SrcLen(c.lines), c.dstPos, DstLen(c.lines)))
  {
    var s4 := Show(DstLen(c.lines)) + " @@\n";
    var s3 := Show(c.dstPos) + ("," + s4);
    var s2 := Show(SrcLen(c.lines)) + (" +" + s3);
    var s1 := Show(c.srcPos) + ("," + s2);
    assert WriteHeader(c) == "@@ -" + s1;
    assert WriteHeader(c)[4..] == s1;
    NumberOf(c.srcPos, ",", s2);
    NumberOf(SrcLen(c.lines), " +", s3);
    NumberOf(c.dstPos, ",", s4);
    NumberOf(DstLen(c.lines), " @@", "\n");
    assert s4 == Show(DstLen(c.lines)) + (" @@" + "\n");
  }

  // ---------------------------------------------------------------- parsing what was written

  lemma {:induction false} FeedAppend(patches: seq<Patch>, a: seq<string>, b: seq<string>)
    ensures Feed(patches, a + b) == if Feed(patches, a).Ok? then Feed(Feed(patches, a).value, b) else Rejected
    decreases a
  {
    if a == [] {
      assert a + b == b;
    } else {
      assert (a + b)[1..] == a[1..] + b;
      if Step(patches, a[0]).Ok? {
        FeedAppend(Step(patches, a[0]).value, a[1..], b);
      }
    }
  }

  lemma {:induction false} FeedNext(patches: seq<Patch>, lines: seq<string>, i: nat)
    requires i < |lines|
    ensures Feed(patches, lines[i..]) ==
      if Step(patches, lines[i]).Ok? then Feed(Step(patches, lines[i]).value, lines[i + 1..]) else Rejected
  {
    assert lines[i..][1..] == lines[i + 1..];
  }

  lemma {:induction false} FeedBoth(p: seq<Patch>, a: seq<string>, b: seq<string>, q: seq<Patch>, r: seq<Patch>)
    requires Feed(p, a) == Ok(q) && Feed(q, b) == Ok(r)
    ensures Feed(p, a + b) == Ok(r)
  {
    FeedAppend(p, a, b);
  }

  lemma {:induction false} FeedOne(p: seq<Patch>, line: string)
    ensures Feed(p, [line]) == Step(p, line)
  {
    assert [line][1..] == [];
    if Step(p, line).Ok? {
      assert Feed(Step(p, line).value, []) == Step(p, line);
    }
  }

  lemma {:induction false} AfterOf(sign: string, text: string)
    requires OneLine(text)
    ensures After(sign, sign + text + "\n") == Some(text)
  {
    var line := sign + text + "\n";
    assert line[|sign|..] == text + "\n";
    assert (text + "\n")[..|text|] == text;
    assert (text + "\n")[|text|] == '\n';
  }

  lemma {:induction false} StepSrcHeader(p: seq<Patch>, src: string)
    requires OneLine(src)
    ensures Step(p, "--- " + src + "\n") == Ok(p + [Patch(src, "", [])])
  {
    AfterOf("--- ", src);
  }

  lemma {:induction false} StepDstHeader(p: seq<Patch>, q: Patch, dst: string)
    requires OneLine(dst)
    ensures Step(p + [q], "+++ " + dst + "\n") == Ok(p + [q.(dst := dst)])
  {
    var line := "+++ " + dst + "\n";
    assert line[0] == '+';
    AfterOf("+++ ", dst);
    assert (p + [q])[..|p|] == p;
  }

  lemma {:induction false} StepChunkHeader(p: seq<Patch>, q: Patch, c: Chunk)
    ensures Step(p + [q], WriteHeader(c)) == Ok(p + [q.(chunks := q.chunks + [c.(lines := [])])])
  {
    assert WriteHeader(c)[0] == '@';
    HeaderOf(c);
    assert (p + [q])[..|p|] == p;
  }

  /** A written line of a chunk is never taken for a header. */
  lemma {:induction false} StepLine(p: seq<Patch>, l: Line)
    requires LineOk(l)
    ensures Step(p, WriteLine(l)) == AddLine(p, l)
  {
    var line := WriteLine(l);
    assert line[0] == Sign(l)[0] && line[1..] == l.text + "\n";
    AfterOf(Sign(l), l.text);
    NoFileHeader(l, "--- ");
    NoFileHeader(l, "+++ ");
    assert !("@@ -" <= line);
    OtherSigns(l);
  }

  lemma {:induction false} OtherSigns(l: Line)
    ensures !l.Src? ==> After("-", WriteLine(l)).None?
    ensures !l.Dst? ==> After("+", WriteLine(l)).None?
    ensures !l.Both? ==> After(" ", WriteLine(l)).None?
  {
    assert WriteLine(l)[0] == Sign(l)[0];
  }

  lemma {:induction false} NoFileHeader(l: Line, header: string)
    requires LineOk(l) && (header == "--- " || header == "+++ ")
    ensures !(header <= WriteLine(l))
  {
    var line := WriteLine(l);
    assert line[0] == Sign(l)[0] && line[1..] == l.text + "\n";
    if header <= line {
      var h := header[1..];
      assert forall i :: 0 <= i < 3 ==> line[1..][i] == h[i];
      ShortHeader(l.text, h);
    }
  }

  lemma {:induction false} EndsLine(text: string, h: string)
    requires h <= text + "\n" && |text| < |h|
    ensures !OneLine(h)
  {
    assert h[|text|] == '\n';
  }

  lemma {:induction false} ShortHeader(text: string, h: string)
    requires h <= text + "\n" && OneLine(h)
    ensures h <= text
  {
    if |text| < |h| {
      EndsLine(text, h);
    }
  }

  lemma {:induction false} FeedLines(p: seq<Patch>, q: Patch, chunks: seq<Chunk>, c: Chunk, lines: seq<Line>)
    requires q.chunks == chunks + [c.(lines := [])] && forall i :: 0 <= i < |lines| ==> LineOk(lines[i])
    ensures Feed(p + [q], WriteLines(lines)) == Ok(p + [q.(chunks := chunks + [c.(lines := lines)])])
    decreases |lines|
  {
    if lines == [] {
    } else {
      var n := |lines| - 1;
      FeedLines(p, q, chunks, c, lines[..n]);
      var mid := q.(chunks := chunks + [c.(lines := lines[..n])]);
      FeedOne(p + [mid], WriteLine(lines[n]));
      StepLine(p + [mid], lines[n]);
      AddLast(p, mid, chunks, c.(lines := lines[..n]), lines[n]);
      assert lines[..n] + [lines[n]] == lines;
      FeedBoth(p + [q], WriteLines(lines[..n]), [WriteLine(lines[n])], p + [mid],
               p + [q.(chunks := chunks + [c.(lines := lines)])]);
    }
  }

  lemma {:induction false} AddLast(p: seq<Patch>, q: Patch, chunks: seq<Chunk>, c: Chunk, l: Line)
    requires q.chunks == chunks + [c]
    ensures AddLine(p + [q], l) == Ok(p + [q.(chunks := chunks + [c.(lines := c.lines + [l])])])
  {
    assert (p + [q])[..|p|] == p;
    assert q.chunks[..|chunks|] == chunks;
  }

  lemma {:induction false} FeedChunk(p: seq<Patch>, q: Patch, c: Chunk)
    requires ChunkOk(c)
    ensures Feed(p + [q], WriteChunk(c)) == Ok(p + [q.(chunks := q.chunks + [c])])
  {
    var mid := q.(chunks := q.chunks + [c.(lines := [])]);
    FeedOne(p + [q], WriteHeader(c));
    StepChunkHeader(p, q, c);
    FeedLines(p, mid, q.chunks, c, c.lines);
    FeedBoth(p + [q], [WriteHeader(c)], WriteLines(c.lines), p + [mid], p + [q.(chunks := q.chunks + [c])]);
  }

  lemma {:induction false} FeedChunks(p: seq<Patch>, q: Patch, chunks: seq<Chunk>)
    requires q.chunks == [] && forall i :: 0 <= i < |chunks| ==> ChunkOk(chunks[i])
    ensures Feed(p + [q], WriteChunks(chunks)) == Ok(p + [q.(chunks := chunks)])
    decreases |chunks|
  {
    if chunks != [] {
      var n := |chunks| - 1;
      FeedChunks(p, q, chunks[..n]);
      FeedChunk(p, q.(chunks := chunks[..n]), chunks[n]);
      assert chunks[..n] + [chunks[n]] == chunks;
      FeedBoth(p + [q], WriteChunks(chunks[..n]), WriteChunk(chunks[n]), p + [q.(chunks := chunks[..n])], p + [q.(chunks := chunks)]);
    }
  }

  lemma {:induction false} FeedPatch(p: seq<Patch>, q: Patch)
    requires PatchOk(q)
    ensures Feed(p, WritePatch(q)) == Ok(p + [q])
  {
    var a, b := "--- " + q.src + "\n", "+++ " + q.dst + "\n";
    var q0, q1 := Patch(q.src, "", []), Patch(q.src, q.dst, []);
    FeedOne(p, a);
    StepSrcHeader(p, q.src);
    FeedOne(p + [q0], b);
    StepDstHeader(p, q0, q.dst);
    FeedBoth(p, [a], [b], p + [q0], p + [q1]);
    assert [a] + [b] == [a, b];
    FeedChunks(p, q1, q.chunks);
    FeedBoth(p, [a, b], WriteChunks(q.chunks), p + [q1], p + [q]);
  }

  lemma {:induction false} WrittenParses(patches: seq<Patch>)
    requires PatchesOk(patches)
    ensures Parse(Write(patches)) == Ok(patches)
    decreases |patches|
  {
    if patches != [] {
      var n := |patches| - 1;
      WrittenParses(patches[..n]);
      FeedPatch(patches[..n], patches[n]);
      assert patches[..n] + [patches[n]] == patches;
      FeedBoth([], Write(patches[..n]), WritePatch(patches[n]), patches[..n], patches);
    }
  }

  /** Writing and parsing again gives the same patches exactly when they are such as parsing returns. */
  lemma {:induction false} RoundTripIff(patches: seq<Patch>)
    ensures Parse(Write(patches)) == Ok(patches) <==> PatchesOk(patches)
  {
    if PatchesOk(patches) {
      WrittenParses(patches);
    }
    if Parse(Write(patches)) == Ok(patches) {
      ParsedOk([], Write(patches));
    }
  }

  /** Whatever was parsed survives being written and parsed again. */
  lemma {:induction false} ParseWriteParse(lines: seq<string>)
    requires Parse(lines).Ok?
    ensures Parse(Write(Parse(lines).value)) == Parse(lines)
  {
    ParsedOk([], lines);
    WrittenParses(Parse(lines).value);
  }

  // ---------------------------------------------------------------- the counts in a header

  /** How many of the lines start with one of two signs. */
  function Starting(lines: seq<string>, a: char, b: char): nat {
    if lines == [] then 0 else
    var last := lines[|lines| - 1];
    Starting(lines[..|lines| - 1], a, b) + (if last != "" && (last[0] == a || last[0] == b) then 1 else 0)
  }

  lemma {:induction false} CountWritten(lines: seq<Line>)
    ensures SrcLen(lines) == Starting(WriteLines(lines), '-', ' ')
    ensures DstLen(lines) == Starting(WriteLines(lines), '+', ' ')
  {
    if lines != [] {
      var n := |lines| - 1;
      CountWritten(lines[..n]);
      var w := WriteLines(lines);
      assert w[..|w| - 1] == WriteLines(lines[..n]);
    }
  }

  /** The counts in a written header are those of the source-side and destination-side lines written after it. */
  lemma {:induction false} HeaderCounts(c: Chunk)
    ensures var body := WriteChunk(c)[1..];
      Header(WriteChunk(c)[0]) == Some((c.srcPos, Starting(body, '-', ' '), c.dstPos, Starting(body, '+', ' ')))
  {
    HeaderOf(c);
    CountWritten(c.lines);
    assert WriteChunk(c)[1..] == WriteLines(c.lines);
  }

  // ---------------------------------------------------------------- where an added line goes

  lemma {:induction false} AddLineAt(patches: seq<Patch>, at: nat, l: Line)
    requires at < |patches| && patches[at].chunks != []
    requires forall j :: at < j < |patches| ==> patches[j].chunks == []
    ensures var p := patches[at];
      var m := |p.chunks| - 1;
      AddLine(patches, l) == Ok(patches[at := p.(chunks := p.chunks[m := p.chunks[m].(lines := p.chunks[m].lines + [l])])])
  {
    var n := |patches| - 1;
    var p := patches[at];
    var m := |p.chunks| - 1;
    var c := p.chunks[m].(lines := p.chunks[m].lines + [l]);
    assert p.chunks[..m] + [c] == p.chunks[m := c];
    var q := p.(chunks := p.chunks[m := c]);
    if at < n {
      AddLineAt(patches[..n], at, l);
      assert patches[..n][at := q] + [patches[n]] == patches[at := q];
    } else {
      assert patches[..n] + [q] == patches[at := q];
    }
  }

  lemma {:induction false} NoChunkAnywhere(patches: seq<Patch>, l: Line)
    requires forall j :: 0 <= j < |patches| ==> patches[j].chunks == []
    ensures AddLine(patches, l) == Rejected
  {
    if patches != [] {
      NoChunkAnywhere(patches[..|patches| - 1], l);
    }
  }
}
