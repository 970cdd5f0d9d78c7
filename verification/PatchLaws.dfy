/**
  What the parser makes of any lines at all, said without its variables: which lines it accepts,
  and to which patch, chunk and line of the result each of them goes.
 */
module PatchLaws {
  import opened Wrappers
  import opened PatchSet

  // ---------------------------------------------------------------- kinds of lines

  /** A line is a sign and a text exactly if it is the two together, perhaps with a newline behind. */
  lemma {:induction false} AfterIff(sign: string, line: string, text: string)
    ensures After(sign, line) == Some(text) <==> OneLine(text) && (line == sign + text || line == sign + text + "\n")
  {
    if After(sign, line) == Some(text) {
      var rest := line[|sign|..];
      assert line == sign + rest;
      if !OneLine(rest) {
        assert rest == text + "\n";
        assert sign + (text + "\n") == sign + text + "\n";
      }
    }
    if OneLine(text) {
      AfterOf(sign, text);
      assert (sign + text)[|sign|..] == text;
    }
  }

  /** A chunk header is four numbers between its signs, and anything behind. */
  ghost predicate WrittenHeader(line: string, a: string, b: string, c: string, d: string, rest: string) {
    && Digits(a) && Digits(b) && Digits(c) && Digits(d)
    && line == "@@ -" + (a + ("," + (b + (" +" + (c + ("," + (d + (" @@" + rest))))))))
  }

  ghost predicate Digits(s: string) {
    s != "" && forall i :: 0 <= i < |s| ==> IsDigit(s[i])
  }

  lemma {:induction false} NumberIff(s: string, after: string, digits: string, rest: string)
    requires after != "" && !IsDigit(after[0])
    ensures Digits(digits) && s == digits + (after + rest) ==> Number(s, after) == Some((ToInt(digits), rest))
  {
    if Digits(digits) && s == digits + (after + rest) {
      DigitCountOf(digits, after + rest);
      assert s[..|digits|] == digits && s[|digits|..] == after + rest;
      assert s[|digits| + |after|..] == rest;
    }
  }

  lemma {:induction false} NumberParts(s: string, after: string) returns (digits: string)
    requires Number(s, after).Some?
    ensures Digits(digits) && s == digits + (after + Number(s, after).value.1)
    ensures Number(s, after).value.0 == ToInt(digits)
  {
    var n := DigitCount(s);
    DigitsAreDigits(s);
    digits := s[..n];
    assert s == digits + s[n..];
    assert s[n..] == after + s[n..][|after|..];
  }

  lemma {:induction false} WrittenHeaderRead(line: string, a: string, b: string, c: string, d: string, rest: string)
    requires WrittenHeader(line, a, b, c, d, rest)
    ensures Header(line) == Some((ToInt(a), ToInt(b), ToInt(c), ToInt(d)))
  {
    var s4 := d + (" @@" + rest);
    var s3 := c + ("," + s4);
    var s2 := b + (" +" + s3);
    var s1 := a + ("," + s2);
    assert line == "@@ -" + s1 && line[4..] == s1;
    NumberIff(s1, ",", a, s2);
    NumberIff(s2, " +", b, s3);
    NumberIff(s3, ",", c, s4);
    NumberIff(s4, " @@", d, rest);
  }

  lemma {:induction false} HeaderIff(line: string, x: nat, y: nat, z: nat, w: nat)
    ensures Header(line) == Some((x, y, z, w)) <==>
      exists a, b, c, d, rest ::
        WrittenHeader(line, a, b, c, d, rest) && x == ToInt(a) && y == ToInt(b) && z == ToInt(c) && w == ToInt(d)
  {
    if Header(line) == Some((x, y, z, w)) {
      var s1 := line[4..];
      assert line == "@@ -" + s1;
      var a := NumberParts(s1, ",");
      var s2 := Number(s1, ",").value.1;
      var b := NumberParts(s2, " +");
      var s3 := Number(s2, " +").value.1;
      var c := NumberParts(s3, ",");
      var s4 := Number(s3, ",").value.1;
      var d := NumberParts(s4, " @@");
      assert WrittenHeader(line, a, b, c, d, Number(s4, " @@").value.1);
    }
    if a, b, c, d, rest :|
      WrittenHeader(line, a, b, c, d, rest) && x == ToInt(a) && y == ToInt(b) && z == ToInt(c) && w == ToInt(d) {
      WrittenHeaderRead(line, a, b, c, d, rest);
    }
  }

  datatype Kind = SrcHeader(text: string) | DstHeader(text: string) | ChunkHeader(srcPos: nat, dstPos: nat) | Content(l: Line) | Junk

  /** File headers come first, then chunk headers, then the signs of chunk lines. */
  function KindOf(line: string): Kind {
    if After("--- ", line).Some? then SrcHeader(After("--- ", line).value)
    else if After("+++ ", line).Some? then DstHeader(After("+++ ", line).value)
    else if Header(line).Some? then ChunkHeader(Header(line).value.0, Header(line).value.2)
    else if After("-", line).Some? then Content(Src(After("-", line).value))
    else if After("+", line).Some? then Content(Dst(After("+", line).value))
    else if After(" ", line).Some? then Content(Both(After(" ", line).value))
    else Junk
  }

  // ---------------------------------------------------------------- which lines are accepted

  ghost predicate HasSrc(lines: seq<Kind>) {
    lines != [] && (lines[|lines| - 1].SrcHeader? || HasSrc(lines[..|lines| - 1]))
  }

  ghost predicate HasChunk(lines: seq<Kind>) {
    lines != [] && (lines[|lines| - 1].ChunkHeader? || HasChunk(lines[..|lines| - 1]))
  }

  /** Nothing is junk, a patch comes before its headers, and a chunk before any of its lines. */
  ghost predicate Accepts(lines: seq<Kind>) {
    lines != [] ==>
      var before := lines[..|lines| - 1];
      && Accepts(before)
      && match lines[|lines| - 1]
         case SrcHeader(_) => true
         case DstHeader(_) => HasSrc(before)
         case ChunkHeader(_, _) => HasSrc(before)
         case Content(_) => HasChunk(before)
         case Junk => false
  }

  // ---------------------------------------------------------------- where the lines go

  /** The lines from each source header to the next. */
  ghost function Sections(lines: seq<Kind>): seq<seq<Kind>> {
    if lines == [] then [] else
    var before, last := Sections(lines[..|lines| - 1]), lines[|lines| - 1];
    if last.SrcHeader? then before + [[last]]
    else if before == [] then []
    else before[..|before| - 1] + [before[|before| - 1] + [last]]
  }

  /** The last destination that a section names. */
  ghost function LastDst(lines: seq<Kind>): string {
    if lines == [] then "" else
    match lines[|lines| - 1]
    case DstHeader(text) => text
    case _ => LastDst(lines[..|lines| - 1])
  }

  /** The positions in the chunk headers of a section. */
  ghost function Positions(lines: seq<Kind>): seq<(nat, nat)> {
    if lines == [] then [] else
    Positions(lines[..|lines| - 1]) +
    match lines[|lines| - 1]
    case ChunkHeader(srcPos, dstPos) => [(srcPos, dstPos)]
    case _ => []
  }

  /** The chunk lines from each chunk header to the next, across file headers. */
  ghost function Contents(lines: seq<Kind>): seq<seq<Line>> {
    if lines == [] then [] else
    var before := Contents(lines[..|lines| - 1]);
    match lines[|lines| - 1]
    case ChunkHeader(_, _) => before + [[]]
    case Content(l) => if before == [] then [] else before[..|before| - 1] + [before[|before| - 1] + [l]]
    case _ => before
  }

  ghost function PositionsOf(chunks: seq<Chunk>): seq<(nat, nat)> {
    if chunks == [] then [] else
    PositionsOf(chunks[..|chunks| - 1]) + [(chunks[|chunks| - 1].srcPos, chunks[|chunks| - 1].dstPos)]
  }

  ghost function LinesOf(chunks: seq<Chunk>): seq<seq<Line>> {
    if chunks == [] then [] else LinesOf(chunks[..|chunks| - 1]) + [chunks[|chunks| - 1].lines]
  }

  /** The lines of all chunks of all patches. */
  ghost function AllLines(patches: seq<Patch>): seq<seq<Line>> {
    if patches == [] then [] else AllLines(patches[..|patches| - 1]) + LinesOf(patches[|patches| - 1].chunks)
  }

  /** What a section says of its patch, but for the chunk lines. */
  datatype Shape = Shape(src: string, dst: string, positions: seq<(nat, nat)>)

  ghost function SectionShape(section: seq<Kind>): Shape {
    Shape(if section != [] && section[0].SrcHeader? then section[0].text else "",
          LastDst(section), Positions(section))
  }

  ghost function SectionShapes(sections: seq<seq<Kind>>): seq<Shape> {
    if sections == [] then [] else
    SectionShapes(sections[..|sections| - 1]) + [SectionShape(sections[|sections| - 1])]
  }

  ghost function ShapeOf(p: Patch): Shape {
    Shape(p.src, p.dst, PositionsOf(p.chunks))
  }

  ghost function Shapes(patches: seq<Patch>): seq<Shape> {
    if patches == [] then [] else Shapes(patches[..|patches| - 1]) + [ShapeOf(patches[|patches| - 1])]
  }

  /** Patch by patch and chunk by chunk, the patches hold what the lines say. */
  ghost predicate Says(patches: seq<Patch>, lines: seq<Kind>) {
    Shapes(patches) == SectionShapes(Sections(lines)) && AllLines(patches) == Contents(lines)
  }

  // ---------------------------------------------------------------- one line more

  lemma {:induction false} OneMorePatch(patches: seq<Patch>, p: Patch)
    ensures Shapes(patches + [p]) == Shapes(patches) + [ShapeOf(p)]
    ensures AllLines(patches + [p]) == AllLines(patches) + LinesOf(p.chunks)
  {
    assert (patches + [p])[..|patches|] == patches;
  }

  lemma {:induction false} OneMoreChunk(chunks: seq<Chunk>, c: Chunk)
    ensures PositionsOf(chunks + [c]) == PositionsOf(chunks) + [(c.srcPos, c.dstPos)]
    ensures LinesOf(chunks + [c]) == LinesOf(chunks) + [c.lines]
  {
    assert (chunks + [c])[..|chunks|] == chunks;
  }

  lemma {:induction false} OneMoreSection(sections: seq<seq<Kind>>, section: seq<Kind>)
    ensures SectionShapes(sections + [section]) == SectionShapes(sections) + [SectionShape(section)]
  {
    assert (sections + [section])[..|sections|] == sections;
  }

  lemma {:induction false} ShapesCount(patches: seq<Patch>, sections: seq<seq<Kind>>)
    ensures |Shapes(patches)| == |patches|
    ensures |SectionShapes(sections)| == |sections|
    decreases |patches| + |sections|
  {
    if patches != [] { ShapesCount(patches[..|patches| - 1], sections); }
    if sections != [] { ShapesCount([], sections[..|sections| - 1]); }
  }

  ghost function WithLine(all: seq<seq<Line>>, l: Line): seq<seq<Line>>
    requires all != []
  {
    all[..|all| - 1] + [all[|all| - 1] + [l]]
  }

  lemma {:induction false} WithLineBehind(a: seq<seq<Line>>, b: seq<seq<Line>>, l: Line)
    requires b != []
    ensures WithLine(a + b, l) == a + WithLine(b, l)
  {
    assert (a + b)[..|a + b| - 1] == a + b[..|b| - 1];
  }

  /** A chunk line goes to the end of the last chunk there is, and to no other place. */
  lemma {:induction false} AddLineShows(patches: seq<Patch>, l: Line)
    ensures AddLine(patches, l).Ok? <==> AllLines(patches) != []
    ensures AddLine(patches, l).Ok? ==>
      var more := AddLine(patches, l).value;
      AllLines(more) == WithLine(AllLines(patches), l) && Shapes(more) == Shapes(patches)
  {
    if patches != [] {
      var n := |patches| - 1;
      var init, p := patches[..n], patches[n];
      assert patches == init + [p];
      OneMorePatch(init, p);
      if p.chunks != [] {
        LastChunkShows(init, p, l);
      } else {
        AddLineShows(init, l);
        assert AllLines(init) + [] == AllLines(init);
        if AddLine(init, l).Ok? {
          var before := AddLine(init, l).value;
          OneMorePatch(before, p);
          assert AllLines(before) + [] == AllLines(before);
        }
      }
    }
  }

  lemma {:induction false} LastChunkShows(init: seq<Patch>, p: Patch, l: Line)
    requires p.chunks != []
    ensures AllLines(init + [p]) != [] && AddLine(init + [p], l).Ok?
    ensures var more := AddLine(init + [p], l).value;
      AllLines(more) == WithLine(AllLines(init + [p]), l) && Shapes(more) == Shapes(init + [p])
  {
    var m := |p.chunks| - 1;
    var chunks, c := p.chunks[..m], p.chunks[m];
    assert p.chunks == chunks + [c];
    OneMoreChunk(chunks, c);
    OneMoreChunk(chunks, c.(lines := c.lines + [l]));
    AddLast(init, p, chunks, c, l);
    OneMorePatch(init, p);
    OneMorePatch(init, p.(chunks := chunks + [c.(lines := c.lines + [l])]));
    WithLineBehind(LinesOf(chunks), [c.lines], l);
    WithLineBehind(AllLines(init), LinesOf(p.chunks), l);
    assert [c.lines][..0] == [];
  }

  lemma {:induction false} SectionsThere(lines: seq<Kind>)
    ensures Sections(lines) != [] <==> HasSrc(lines)
    ensures Accepts(lines) ==> (Contents(lines) != [] <==> HasChunk(lines))
  {
    if lines != [] { SectionsThere(lines[..|lines| - 1]); }
  }

  /** One line more in a section. */
  lemma {:induction false} SectionOn(section: seq<Kind>, k: Kind)
    requires section != [] && !k.SrcHeader?
    ensures var s, t := SectionShape(section), SectionShape(section + [k]);
      match k
      case DstHeader(text) => t == s.(dst := text)
      case ChunkHeader(a, b) => t == s.(positions := s.positions + [(a, b)])
      case _ => t == s
  {
    assert (section + [k])[..|section|] == section;
    assert Positions(section) + [] == Positions(section);
  }

  /** One line more, seen in the sections. */
  lemma {:induction false} SectionsOn(lines: seq<Kind>, k: Kind)
    ensures var before, after := Sections(lines), Sections(lines + [k]);
      if k.SrcHeader? then
        SectionShapes(after) == SectionShapes(before) + [Shape(k.text, "", [])]
      else if before == [] then after == []
      else
        var n := |before| - 1;
        && SectionShapes(before) == SectionShapes(before[..n]) + [SectionShape(before[n])]
        && SectionShapes(after) == SectionShapes(before[..n]) + [SectionShape(before[n] + [k])]
  {
    assert (lines + [k])[..|lines|] == lines;
    var before := Sections(lines);
    if k.SrcHeader? {
      OneMoreSection(before, [k]);
      assert [k][..0] == [];
      assert Positions([k]) == [] && LastDst([k]) == "";
    } else if before != [] {
      OneMoreSection(before[..|before| - 1], before[|before| - 1] + [k]);
    }
  }

  lemma {:induction false} SectionsNonEmpty(lines: seq<Kind>)
    ensures forall i :: 0 <= i < |Sections(lines)| ==> Sections(lines)[i] != []
  {
    if lines != [] { SectionsNonEmpty(lines[..|lines| - 1]); }
  }

  lemma {:induction false} LastOf<T>(a: seq<T>, x: T, b: seq<T>, y: T)
    requires a + [x] == b + [y]
    ensures a == b && x == y
  {
    assert (a + [x])[..|a|] == a && (b + [y])[..|b|] == b && (a + [x])[|a|] == x && (b + [y])[|b|] == y;
    assert |a + [x]| == |b + [y]|;
  }

  lemma {:induction false} SaysSrc(patches: seq<Patch>, lines: seq<Kind>, text: string)
    requires Says(patches, lines)
    ensures Says(patches + [Patch(text, "", [])], lines + [SrcHeader(text)])
  {
    OneMorePatch(patches, Patch(text, "", []));
    SectionsOn(lines, SrcHeader(text));
    assert (lines + [SrcHeader(text)])[..|lines|] == lines;
    assert AllLines(patches) + [] == AllLines(patches);
  }

  /** The last patch takes up a header in the way in which its section does. */
  ghost predicate TakesUp(p: Patch, k: Kind, q: Patch) {
    match k
    case DstHeader(text) => q == p.(dst := text)
    case ChunkHeader(a, b) => q == p.(chunks := p.chunks + [Chunk(a, b, [])])
    case _ => false
  }

  lemma {:induction false} HeaderShapes(init: seq<Patch>, p: Patch, lines: seq<Kind>, k: Kind, q: Patch)
    requires Shapes(init + [p]) == SectionShapes(Sections(lines)) && TakesUp(p, k, q)
    ensures Sections(lines) != [] && Shapes(init + [q]) == SectionShapes(Sections(lines + [k]))
  {
    ShapesCount(init + [p], Sections(lines));
    SectionsOn(lines, k);
    OneMorePatch(init, p);
    OneMorePatch(init, q);
    var sections := Sections(lines);
    var n := |sections| - 1;
    SectionsNonEmpty(lines);
    SectionOn(sections[n], k);
    LastOf(Shapes(init), ShapeOf(p), SectionShapes(sections[..n]), SectionShape(sections[n]));
    if k.ChunkHeader? {
      OneMoreChunk(p.chunks, Chunk(k.srcPos, k.dstPos, []));
    }
  }

  lemma {:induction false} HeaderLines(init: seq<Patch>, p: Patch, lines: seq<Kind>, k: Kind, q: Patch)
    requires AllLines(init + [p]) == Contents(lines) && TakesUp(p, k, q)
    ensures AllLines(init + [q]) == Contents(lines + [k])
  {
    assert (lines + [k])[..|lines|] == lines;
    OneMorePatch(init, p);
    OneMorePatch(init, q);
    if k.ChunkHeader? {
      OneMoreChunk(p.chunks, Chunk(k.srcPos, k.dstPos, []));
      assert AllLines(init) + (LinesOf(p.chunks) + [[]]) == AllLines(init) + LinesOf(p.chunks) + [[]];
    }
  }

  lemma {:induction false} SaysHeader(patches: seq<Patch>, lines: seq<Kind>, k: Kind, q: Patch)
    requires Says(patches, lines) && patches != [] && TakesUp(patches[|patches| - 1], k, q)
    ensures Sections(lines) != []
    ensures Says(patches[..|patches| - 1] + [q], lines + [k])
  {
    var n := |patches| - 1;
    assert patches == patches[..n] + [patches[n]];
    HeaderShapes(patches[..n], patches[n], lines, k, q);
    HeaderLines(patches[..n], patches[n], lines, k, q);
  }

  lemma {:induction false} SaysContent(patches: seq<Patch>, lines: seq<Kind>, l: Line)
    requires Says(patches, lines)
    ensures AddLine(patches, l).Ok? <==> Contents(lines) != []
    ensures AddLine(patches, l).Ok? ==> Says(AddLine(patches, l).value, lines + [Content(l)])
  {
    assert (lines + [Content(l)])[..|lines|] == lines;
    AddLineShows(patches, l);
    SectionsOn(lines, Content(l));
    SectionsNonEmpty(lines);
    var before := Sections(lines);
    if before != [] {
      SectionOn(before[|before| - 1], Content(l));
    }
  }

  // ---------------------------------------------------------------- all lines

  function Kinds(lines: seq<string>): seq<Kind> {
    if lines == [] then [] else Kinds(lines[..|lines| - 1]) + [KindOf(lines[|lines| - 1])]
  }

  lemma {:induction false} StepByKind(patches: seq<Patch>, line: string)
    ensures var n := |patches| - 1;
      Step(patches, line) ==
        match KindOf(line)
        case SrcHeader(text) => Ok(patches + [Patch(text, "", [])])
        case DstHeader(text) => if n < 0 then Rejected else Ok(patches[..n] + [patches[n].(dst := text)])
        case ChunkHeader(a, b) =>
          if n < 0 then Rejected else Ok(patches[..n] + [patches[n].(chunks := patches[n].chunks + [Chunk(a, b, [])])])
        case Content(l) => AddLine(patches, l)
        case Junk => Rejected
  {
  }

  lemma {:induction false} StepSays(patches: seq<Patch>, lines: seq<Kind>, line: string, k: Kind)
    requires Accepts(lines) && Says(patches, lines) && k == KindOf(line)
    ensures Step(patches, line).Ok? <==> Accepts(lines + [k])
    ensures Step(patches, line).Ok? ==> Says(Step(patches, line).value, lines + [k])
  {
    assert (lines + [k])[..|lines|] == lines;
    StepByKind(patches, line);
    SectionsThere(lines);
    ShapesCount(patches, Sections(lines));
    match k
    case SrcHeader(text) => SaysSrc(patches, lines, text);
    case DstHeader(text) =>
      if patches != [] { SaysHeader(patches, lines, k, patches[|patches| - 1].(dst := text)); }
    case ChunkHeader(a, b) =>
      if patches != [] {
        var p := patches[|patches| - 1];
        SaysHeader(patches, lines, k, p.(chunks := p.chunks + [Chunk(a, b, [])]));
      }
    case Content(l) => SaysContent(patches, lines, l);
    case Junk =>
  }

  /**
    The parser accepts exactly the lines in which nothing is junk, headers come after a source header
    and chunk lines after a chunk header.  Then each patch shows its section, and the chunks of all
    the patches together hold the chunk lines in their order.
   */
  lemma {:induction false} ParseSays(lines: seq<string>)
    ensures Parse(lines).Ok? <==> Accepts(Kinds(lines))
    ensures Parse(lines).Ok? ==> Says(Parse(lines).value, Kinds(lines))
  {
    if lines != [] {
      var n := |lines| - 1;
      var init, line := lines[..n], lines[n];
      assert lines == init + [line];
      ParseSays(init);
      FeedAppend([], init, [line]);
      assert Kinds(lines)[..n] == Kinds(init) by { KindsCount(init); }
      if Parse(init).Ok? {
        FeedOne(Parse(init).value, line);
        StepSays(Parse(init).value, Kinds(init), line, KindOf(line));
      }
    }
  }

  lemma {:induction false} KindsCount(lines: seq<string>)
    ensures |Kinds(lines)| == |lines|
  {
    if lines != [] { KindsCount(lines[..|lines| - 1]); }
  }

  // ---------------------------------------------------------------- what is written

  ghost function LineKinds(lines: seq<Line>): seq<Kind> {
    if lines == [] then [] else LineKinds(lines[..|lines| - 1]) + [Content(lines[|lines| - 1])]
  }

  ghost function ChunkKinds(chunks: seq<Chunk>): seq<Kind> {
    if chunks == [] then [] else
    var c := chunks[|chunks| - 1];
    ChunkKinds(chunks[..|chunks| - 1]) + ([ChunkHeader(c.srcPos, c.dstPos)] + LineKinds(c.lines))
  }

  /** Two file headers for each patch, a header for each chunk, and its lines. */
  ghost function PatchKinds(patches: seq<Patch>): seq<Kind> {
    if patches == [] then [] else
    var p := patches[|patches| - 1];
    PatchKinds(patches[..|patches| - 1]) + ([SrcHeader(p.src), DstHeader(p.dst)] + ChunkKinds(p.chunks))
  }

  lemma {:induction false} KindsAppend(a: seq<string>, b: seq<string>)
    ensures Kinds(a + b) == Kinds(a) + Kinds(b)
  {
    if b == [] {
      assert a + b == a;
    } else {
      var n := |b| - 1;
      assert (a + b)[..|a| + n] == a + b[..n];
      KindsAppend(a, b[..n]);
    }
  }

  lemma {:induction false} KindsOne(line: string)
    ensures Kinds([line]) == [KindOf(line)]
  {
    assert [line][..0] == [];
  }

  lemma {:induction false} WrittenLineKind(l: Line)
    requires LineOk(l)
    ensures KindOf(WriteLine(l)) == Content(l)
  {
    var line := WriteLine(l);
    assert line[0] == Sign(l)[0];
    AfterOf(Sign(l), l.text);
    NoFileHeader(l, "--- ");
    NoFileHeader(l, "+++ ");
    assert !("@@ -" <= line);
    OtherSigns(l);
  }

  lemma {:induction false} WrittenLines(lines: seq<Line>)
    requires forall i :: 0 <= i < |lines| ==> LineOk(lines[i])
    ensures Kinds(WriteLines(lines)) == LineKinds(lines)
  {
    if lines != [] {
      var n := |lines| - 1;
      WrittenLines(lines[..n]);
      KindsAppend(WriteLines(lines[..n]), [WriteLine(lines[n])]);
      KindsOne(WriteLine(lines[n]));
      WrittenLineKind(lines[n]);
    }
  }

  lemma {:induction false} WrittenHeaderKind(c: Chunk)
    ensures KindOf(WriteHeader(c)) == ChunkHeader(c.srcPos, c.dstPos)
  {
    assert WriteHeader(c)[0] == '@';
    HeaderOf(c);
  }

  lemma {:induction false} WrittenChunks(chunks: seq<Chunk>)
    requires forall i :: 0 <= i < |chunks| ==> ChunkOk(chunks[i])
    ensures Kinds(WriteChunks(chunks)) == ChunkKinds(chunks)
  {
    if chunks != [] {
      var n := |chunks| - 1;
      var c := chunks[n];
      WrittenChunks(chunks[..n]);
      KindsAppend(WriteChunks(chunks[..n]), WriteChunk(c));
      KindsAppend([WriteHeader(c)], WriteLines(c.lines));
      KindsOne(WriteHeader(c));
      WrittenHeaderKind(c);
      WrittenLines(c.lines);
    }
  }

  lemma {:induction false} WrittenFileHeaders(src: string, dst: string)
    requires OneLine(src) && OneLine(dst)
    ensures Kinds(["--- " + src + "\n", "+++ " + dst + "\n"]) == [SrcHeader(src), DstHeader(dst)]
  {
    var a, b := "--- " + src + "\n", "+++ " + dst + "\n";
    AfterOf("--- ", src);
    AfterOf("+++ ", dst);
    assert b[0] == '+';
    assert [a] + [b] == [a, b];
    KindsAppend([a], [b]);
    KindsOne(a);
    KindsOne(b);
  }

  /** Nothing is written but the headers and lines of the patches, each once and in its place. */
  lemma {:induction false} WrittenKinds(patches: seq<Patch>)
    requires PatchesOk(patches)
    ensures Kinds(Write(patches)) == PatchKinds(patches)
  {
    if patches != [] {
      var n := |patches| - 1;
      var p := patches[n];
      WrittenKinds(patches[..n]);
      KindsAppend(Write(patches[..n]), WritePatch(p));
      KindsAppend(["--- " + p.src + "\n", "+++ " + p.dst + "\n"], WriteChunks(p.chunks));
      WrittenFileHeaders(p.src, p.dst);
      WrittenChunks(p.chunks);
    }
  }

  /** Numbers are written in digits without leading zeros, and nothing follows the signs of a header. */
  lemma {:induction false} WrittenPlainly(c: Chunk, n: nat)
    ensures Digits(Show(n)) && (Show(n)[0] == '0' ==> n == 0 && |Show(n)| == 1)
    ensures WrittenHeader(WriteHeader(c), Show(c.srcPos), Show(SrcLen(c.lines)), Show(c.dstPos), Show(DstLen(c.lines)), "\n")
  {
    NoLeadingZero(n);
    ShowDigits(n);
    ShowDigits(c.srcPos);
    ShowDigits(SrcLen(c.lines));
    ShowDigits(c.dstPos);
    ShowDigits(DstLen(c.lines));
    assert " @@\n" == " @@" + "\n";
  }

  lemma {:induction false} NoLeadingZero(n: nat)
    ensures Show(n) != "" && (Show(n)[0] == '0' ==> n == 0 && |Show(n)| == 1)
  {
    if n >= 10 { NoLeadingZero(n / 10); }
  }

  /** Every written line ends with its only newline. */
  lemma {:induction false} WrittenEndLines(patches: seq<Patch>)
    requires PatchesOk(patches)
    ensures AllEnd(Write(patches))
  {
    if patches != [] {
      var n := |patches| - 1;
      WrittenEndLines(patches[..n]);
      ChunksEndLines(patches[n].chunks);
    }
  }

  ghost predicate EndsLineOnly(line: string) {
    line != "" && line[|line| - 1] == '\n' && OneLine(line[..|line| - 1])
  }

  ghost predicate AllEnd(lines: seq<string>) {
    forall i :: 0 <= i < |lines| ==> EndsLineOnly(lines[i])
  }

  lemma {:induction false} LinesEndLines(lines: seq<Line>)
    requires forall i :: 0 <= i < |lines| ==> LineOk(lines[i])
    ensures AllEnd(WriteLines(lines))
  {
    if lines != [] { LinesEndLines(lines[..|lines| - 1]); }
  }

  lemma {:induction false} EndsBehind(a: string, b: string)
    requires OneLine(a) && EndsLineOnly(b)
    ensures EndsLineOnly(a + b)
  {
    assert (a + b)[..|a + b| - 1] == a + b[..|b| - 1];
  }

  lemma {:induction false} NumberEnds(n: nat, b: string)
    requires EndsLineOnly(b)
    ensures EndsLineOnly(Show(n) + b)
  {
    ShowDigits(n);
    EndsBehind(Show(n), b);
  }

  lemma {:induction false} HeaderEndsLine(c: Chunk)
    ensures EndsLineOnly(WriteHeader(c))
  {
    var s4 := Show(DstLen(c.lines)) + " @@\n";
    var s3 := Show(c.dstPos) + ("," + s4);
    var s2 := Show(SrcLen(c.lines)) + (" +" + s3);
    var s1 := Show(c.srcPos) + ("," + s2);
    NumberEnds(DstLen(c.lines), " @@\n");
    EndsBehind(",", s4);
    NumberEnds(c.dstPos, "," + s4);
    EndsBehind(" +", s3);
    NumberEnds(SrcLen(c.lines), " +" + s3);
    EndsBehind(",", s2);
    NumberEnds(c.srcPos, "," + s2);
    EndsBehind("@@ -", s1);
    assert WriteHeader(c) == "@@ -" + s1;
  }

  lemma {:induction false} ChunksEndLines(chunks: seq<Chunk>)
    requires forall i :: 0 <= i < |chunks| ==> ChunkOk(chunks[i])
    ensures AllEnd(WriteChunks(chunks))
  {
    if chunks != [] {
      var n := |chunks| - 1;
      ChunksEndLines(chunks[..n]);
      HeaderEndsLine(chunks[n]);
      LinesEndLines(chunks[n].lines);
    }
  }
}
