/**
  The patch objects of the program: patches hold references to chunks, and the parser keeps a
  reference to the chunk it is filling, which may outlive the patch it is filling.
 */
module PatchObjects {
  import opened Wrappers
  import opened PatchSet

  class PatchChunk {
    const srcPos: nat
    const dstPos: nat
    var lines: seq<Line>

    constructor (srcPos: nat, dstPos: nat)
      ensures View() == Chunk(srcPos, dstPos, [])
    {
      this.srcPos, this.dstPos, lines := srcPos, dstPos, [];
    }

    ghost function View(): Chunk
      reads this
    {
      Chunk(srcPos, dstPos, lines)
    }

    method Add(l: Line)
      modifies this
      ensures lines == old(lines) + [l]
    {
      lines := lines + [l];
    }

    method CountSrc() returns (n: nat)
      ensures n == SrcLen(lines)
    {
      n := 0;
      for i := 0 to |lines|
        invariant n == SrcLen(lines[..i])
      {
        assert lines[..i + 1][..i] == lines[..i];
        if IsSrc(lines[i]) {
          n := n + 1;
        }
      }
      assert lines[..|lines|] == lines;
    }

    method CountDst() returns (n: nat)
      ensures n == DstLen(lines)
    {
      n := 0;
      for i := 0 to |lines|
        invariant n == DstLen(lines[..i])
      {
        assert lines[..i + 1][..i] == lines[..i];
        if IsDst(lines[i]) {
          n := n + 1;
        }
      }
      assert lines[..|lines|] == lines;
    }

    /** The header with the counts as they are now, and the lines. */
    method WriteTo(f0: seq<string>, ghost view: Chunk) returns (f: seq<string>)
      requires view == View()
      ensures f == f0 + WriteChunk(view)
    {
      var srcLen := CountSrc();
      var dstLen := CountDst();
      f := f0 + ["@@ -" + (Show(srcPos) + ("," + (Show(srcLen) + (" +" + (Show(dstPos) + ("," + (Show(dstLen) + " @@\n")))))))];
      for i := 0 to |lines|
        invariant f == f0 + ([WriteHeader(view)] + WriteLines(lines[..i]))
      {
        assert lines[..i + 1][..i] == lines[..i];
        f := f + [WriteLine(lines[i])];
      }
      assert lines[..|lines|] == lines;
    }
  }

  class FilePatch {
    var src: string
    var dst: string
    var chunks: seq<PatchChunk>

    constructor ()
      ensures src == "" && dst == "" && chunks == []
    {
      src, dst, chunks := "", "", [];
    }

    /** What the patch and its chunks hold is v. */
    ghost predicate Shows(v: Patch)
      reads this, chunks
    {
      && src == v.src && dst == v.dst && |chunks| == |v.chunks|
      && forall a :: 0 <= a < |chunks| ==> chunks[a].View() == v.chunks[a]
    }

    method AddChunk(chunk: PatchChunk)
      modifies this`chunks
      ensures chunks == old(chunks) + [chunk]
    {
      chunks := chunks + [chunk];
    }

    method WriteTo(f0: seq<string>, ghost view: Patch) returns (f: seq<string>)
      requires Shows(view)
      ensures f == f0 + WritePatch(view)
    {
      f := f0 + ["--- " + src + "\n"];
      f := f + ["+++ " + dst + "\n"];
      var body := WriteChunksOf(chunks, view.chunks);
      f := f + body;
    }
  }

  /** The loop over the chunks of a patch. */
  method WriteChunksOf(chunks: seq<PatchChunk>, ghost views: seq<Chunk>) returns (f: seq<string>)
    requires |views| == |chunks| && forall a :: 0 <= a < |chunks| ==> chunks[a].View() == views[a]
    ensures f == WriteChunks(views)
  {
    f := [];
    for i := 0 to |chunks|
      invariant f == WriteChunks(views[..i])
    {
      WriteChunksUpTo(views, i);
      f := chunks[i].WriteTo(f, views[i]);
    }
    assert views[..|views|] == views;
  }

  /** All the patches and their chunks are among the objects of repr. */
  ghost predicate Owned(patches: seq<FilePatch>, repr: set<object>)
    reads repr
  {
    forall i :: 0 <= i < |patches| ==> patches[i] in repr && forall a :: 0 <= a < |patches[i].chunks| ==> patches[i].chunks[a] in repr
  }

  /** What the patches hold, one by one, is views. */
  ghost predicate Showing(patches: seq<FilePatch>, repr: set<object>, views: seq<Patch>)
    requires Owned(patches, repr)
    reads repr
  {
    |views| == |patches| && forall i :: 0 <= i < |patches| ==> patches[i].Shows(views[i])
  }

  method WritePatches(patches: seq<FilePatch>, ghost repr: set<object>, ghost views: seq<Patch>) returns (f: seq<string>)
    requires Owned(patches, repr) && Showing(patches, repr, views)
    ensures f == Write(views)
  {
    f := [];
    for i := 0 to |patches|
      invariant f == Write(views[..i])
    {
      WriteUpTo(views, i);
      f := patches[i].WriteTo(f, views[i]);
    }
    assert views[..|views|] == views;
  }

  // ---------------------------------------------------------------- parsing

  /**
    The parser's variables.  The current patch is the newest one; the current chunk is the
    last of patch number at, which is the newest patch with any chunks.
   */
  ghost predicate Parsing(patches: seq<FilePatch>, repr: set<object>, views: seq<Patch>,
                          currentPatch: FilePatch?, currentChunk: PatchChunk?, at: int)
    reads repr
  {
    && Owned(patches, repr) && Showing(patches, repr, views)
    && NewestPatch(patches, repr, currentPatch) && NewestChunk(patches, repr, currentChunk, at)
  }

  ghost predicate NewestPatch(patches: seq<FilePatch>, repr: set<object>, currentPatch: FilePatch?) {
    && (forall i, j :: 0 <= i < j < |patches| ==> patches[i] != patches[j])
    && (if patches == [] then currentPatch == null else currentPatch == patches[|patches| - 1] && currentPatch in repr)
  }

  ghost predicate NewestChunk(patches: seq<FilePatch>, repr: set<object>, currentChunk: PatchChunk?, at: int)
    requires Owned(patches, repr)
    reads repr
  {
    && -1 <= at < |patches|
    && (forall j :: at < j < |patches| ==> patches[j].chunks == [])
    && if at < 0 then currentChunk == null else
       currentChunk != null && currentChunk in repr && patches[at].chunks != []
       && patches[at].chunks[|patches[at].chunks| - 1] == currentChunk
       && ChunkOnlyAt(patches, repr, currentChunk, at)
  }

  /** The chunk is listed nowhere but at the end of patch number at. */
  ghost predicate ChunkOnlyAt(patches: seq<FilePatch>, repr: set<object>, chunk: PatchChunk, at: nat)
    requires Owned(patches, repr)
    reads repr
  {
    forall i, a {:trigger patches[i].chunks[a]} :: 0 <= i < |patches| && 0 <= a < |patches[i].chunks| && patches[i].chunks[a] == chunk ==>
      i == at && a == |patches[i].chunks| - 1
  }

  /** What the patch numbered at will show once its last chunk has the line. */
  ghost function WithLine(views: seq<Patch>, at: nat, l: Line): seq<Patch>
    requires at < |views| && views[at].chunks != []
  {
    var c := views[at].chunks;
    var m := |c| - 1;
    views[at := views[at].(chunks := c[m := c[m].(lines := c[m].lines + [l])])]
  }

  /** Adding a line to the current chunk changes what one patch shows, and only its last chunk. */
  method AddLineToChunk(patches: seq<FilePatch>, ghost repr: set<object>, ghost views: seq<Patch>,
                        currentPatch: FilePatch?, currentChunk: PatchChunk, ghost at: int, l: Line)
    returns (ghost views': seq<Patch>)
    requires Parsing(patches, repr, views, currentPatch, currentChunk, at)
    modifies currentChunk
    ensures Parsing(patches, repr, views', currentPatch, currentChunk, at)
    ensures AddLine(views, l) == Ok(views')
  {
    AddLineAt(views, at, l);
    views' := WithLine(views, at, l);
    currentChunk.Add(l);
    forall i | 0 <= i < |patches| ensures patches[i].Shows(views'[i]) {
      forall a | 0 <= a < |patches[i].chunks| ensures patches[i].chunks[a].View() == views'[i].chunks[a] {
      }
    }
  }

  method StartPatch(patches0: seq<FilePatch>, ghost repr0: set<object>, ghost views: seq<Patch>, src: string,
                    ghost currentPatch0: FilePatch?, ghost currentChunk: PatchChunk?, ghost at: int)
    returns (patches: seq<FilePatch>, currentPatch: FilePatch, ghost repr: set<object>)
    requires Parsing(patches0, repr0, views, currentPatch0, currentChunk, at)
    ensures fresh(repr - repr0)
    ensures Parsing(patches, repr, views + [Patch(src, "", [])], currentPatch, currentChunk, at)
  {
    currentPatch := new FilePatch();
    currentPatch.src := src;
    patches := patches0 + [currentPatch];
    repr := repr0 + {currentPatch};
    OneMorePatch(patches0, repr0, views, currentPatch0, currentChunk, at, currentPatch, Patch(src, "", []));
  }

  lemma {:induction false} OneMorePatch(patches: seq<FilePatch>, repr: set<object>, views: seq<Patch>, currentPatch: FilePatch?,
                                        currentChunk: PatchChunk?, at: int, p: FilePatch, v: Patch)
    requires Parsing(patches, repr, views, currentPatch, currentChunk, at) && p !in repr && p.chunks == [] && p.Shows(v)
    ensures Parsing(patches + [p], repr + {p}, views + [v], p, currentChunk, at)
  {
    assert Owned(patches + [p], repr + {p}) && Showing(patches + [p], repr + {p}, views + [v]);
  }

  method SetDst(patches: seq<FilePatch>, ghost repr: set<object>, ghost views: seq<Patch>, dst: string,
                currentPatch: FilePatch, ghost currentChunk: PatchChunk?, ghost at: int)
    requires Parsing(patches, repr, views, currentPatch, currentChunk, at)
    modifies currentPatch`dst
    ensures Parsing(patches, repr, views[..|views| - 1] + [views[|views| - 1].(dst := dst)], currentPatch, currentChunk, at)
  {
    currentPatch.dst := dst;
  }

  /** A new chunk at the end of the last patch is nowhere else. */
  method LinkChunk(patches: seq<FilePatch>, ghost repr: set<object>, patch: FilePatch, srcPos: nat, dstPos: nat)
    returns (chunk: PatchChunk)
    requires Owned(patches, repr) && patches != [] && patch == patches[|patches| - 1]
    requires forall i :: 0 <= i < |patches| - 1 ==> patches[i] != patch
    modifies patch`chunks
    ensures fresh(chunk) && chunk.View() == Chunk(srcPos, dstPos, []) && patch.chunks == old(patch.chunks) + [chunk]
    ensures Owned(patches, repr + {chunk}) && ChunkOnlyAt(patches, repr + {chunk}, chunk, |patches| - 1)
  {
    chunk := new PatchChunk(srcPos, dstPos);
    patch.AddChunk(chunk);
  }

  /** The last patch shows one chunk more. */
  ghost predicate OneMoreChunk(views: seq<Patch>, views': seq<Patch>, c: Chunk) {
    && views != [] && |views'| == |views|
    && (forall i :: 0 <= i < |views| - 1 ==> views'[i] == views[i])
    && views'[|views| - 1] == views[|views| - 1].(chunks := views[|views| - 1].chunks + [c])
  }

  /** The new chunk shows in the last patch and leaves the others as they were. */
  method ShowChunk(patches: seq<FilePatch>, ghost repr: set<object>, ghost views: seq<Patch>, ghost views': seq<Patch>,
                   patch: FilePatch, srcPos: nat, dstPos: nat)
    returns (chunk: PatchChunk)
    requires Owned(patches, repr) && Showing(patches, repr, views) && NewestPatch(patches, repr, patch)
    requires OneMoreChunk(views, views', Chunk(srcPos, dstPos, []))
    modifies patch`chunks
    ensures fresh(chunk) && Owned(patches, repr + {chunk}) && ChunkOnlyAt(patches, repr + {chunk}, chunk, |patches| - 1)
    ensures patch.chunks == old(patch.chunks) + [chunk] && Showing(patches, repr + {chunk}, views')
  {
    chunk := LinkChunk(patches, repr, patch, srcPos, dstPos);
    forall i | 0 <= i < |patches| - 1 ensures patches[i].Shows(views'[i]) {
      assert old(patches[i].Shows(views[i]));
    }
  }

  method StartChunk(patches: seq<FilePatch>, ghost repr0: set<object>, ghost views: seq<Patch>, ghost views': seq<Patch>,
                    srcPos: nat, dstPos: nat, currentPatch: FilePatch, ghost currentChunk0: PatchChunk?, ghost at: int)
    returns (currentChunk: PatchChunk, ghost repr: set<object>)
    requires Parsing(patches, repr0, views, currentPatch, currentChunk0, at)
    requires OneMoreChunk(views, views', Chunk(srcPos, dstPos, []))
    modifies currentPatch`chunks
    ensures fresh(repr - repr0)
    ensures Parsing(patches, repr, views', currentPatch, currentChunk, |patches| - 1)
  {
    currentChunk := ShowChunk(patches, repr0, views, views', currentPatch, srcPos, dstPos);
    repr := repr0 + {currentChunk};
    ChunkStarted(patches, repr0, views', currentPatch, currentChunk);
  }

  lemma {:induction false} ChunkStarted(patches: seq<FilePatch>, repr: set<object>, views: seq<Patch>,
                                        patch: FilePatch, chunk: PatchChunk)
    requires Owned(patches, repr + {chunk}) && Showing(patches, repr + {chunk}, views)
    requires NewestPatch(patches, repr, patch) && patches != []
    requires ChunkOnlyAt(patches, repr + {chunk}, chunk, |patches| - 1)
    requires patch.chunks != [] && patch.chunks[|patch.chunks| - 1] == chunk
    ensures Parsing(patches, repr + {chunk}, views, patch, chunk, |patches| - 1)
  {
  }

  /** The body of the parser's loop; ok is false where the source raises an exception. */
  method ParseLine(patches0: seq<FilePatch>, ghost repr0: set<object>, ghost views0: seq<Patch>,
                   currentPatch0: FilePatch?, currentChunk0: PatchChunk?, ghost at0: int, line: string)
    returns (ok: bool, patches: seq<FilePatch>, ghost repr: set<object>, ghost views: seq<Patch>,
             currentPatch: FilePatch?, currentChunk: PatchChunk?, ghost at: int)
    requires Parsing(patches0, repr0, views0, currentPatch0, currentChunk0, at0)
    modifies repr0
    ensures ok <==> Step(views0, line).Ok?
    ensures ok ==> views == Step(views0, line).value && Parsing(patches, repr, views, currentPatch, currentChunk, at)
    ensures fresh(repr - repr0)
  {
    ok, patches, repr, views, currentPatch, currentChunk, at := true, patches0, repr0, views0, currentPatch0, currentChunk0, at0;
    var m := After("--- ", line);
    if m.Some? {
      patches, currentPatch, repr := StartPatch(patches, repr, views, m.value, currentPatch0, currentChunk, at);
      views := views + [Patch(m.value, "", [])];
      return;
    }
    m := After("+++ ", line);
    if m.Some? {
      ok := currentPatch != null;
      if ok {
        SetDst(patches, repr, views, m.value, currentPatch, currentChunk, at);
        views := views[..|views| - 1] + [views[|views| - 1].(dst := m.value)];
      }
      return;
    }
    var h := Header(line);
    if h.Some? {
      ok := currentPatch != null;
      if ok {
        currentChunk, repr :=
          StartChunk(patches, repr, views, Step(views, line).value, h.value.0, h.value.2, currentPatch, currentChunk0, at);
        views := Step(views, line).value;
        at := |patches| - 1;
      }
      return;
    }
    ok, views := ParseChunkLine(patches, repr, views, currentPatch, currentChunk, at, line);
  }

  /** A line that is no header belongs to the current chunk. */
  method ParseChunkLine(patches: seq<FilePatch>, ghost repr: set<object>, ghost views0: seq<Patch>,
                        currentPatch: FilePatch?, currentChunk: PatchChunk?, ghost at: int, line: string)
    returns (ok: bool, ghost views: seq<Patch>)
    requires Parsing(patches, repr, views0, currentPatch, currentChunk, at)
    requires After("--- ", line).None? && After("+++ ", line).None? && Header(line).None?
    modifies repr
    ensures ok <==> Step(views0, line).Ok?
    ensures ok ==> views == Step(views0, line).value && Parsing(patches, repr, views, currentPatch, currentChunk, at)
  {
    views := views0;
    var l: Line;
    if After("-", line).Some? {
      l := Src(After("-", line).value);
    } else if After("+", line).Some? {
      l := Dst(After("+", line).value);
    } else if After(" ", line).Some? {
      l := Both(After(" ", line).value);
    } else {
      return false, views;
    }
    ok := currentChunk != null;
    if ok {
      views := AddLineToChunk(patches, repr, views, currentPatch, currentChunk, at, l);
    } else {
      NoChunkAnywhere(views, l);
    }
  }

  /** Parsing the lines; ok is false where the source raises an exception. */
  method ParsePatchset(lines: seq<string>) returns (ok: bool, patches: seq<FilePatch>, ghost repr: set<object>)
    ensures ok <==> Parse(lines).Ok?
    ensures ok ==> fresh(repr) && Owned(patches, repr) && Showing(patches, repr, Parse(lines).value)
  {
    ok, patches, repr := true, [], {};
    var currentPatch: FilePatch? := null;
    var currentChunk: PatchChunk? := null;
    ghost var views: seq<Patch> := [];
    ghost var at := -1;
    for i := 0 to |lines|
      invariant fresh(repr) && Parsing(patches, repr, views, currentPatch, currentChunk, at)
      invariant Parse(lines) == Feed(views, lines[i..]) && ok
    {
      FeedNext(views, lines, i);
      ok, patches, repr, views, currentPatch, currentChunk, at :=
        ParseLine(patches, repr, views, currentPatch, currentChunk, at, lines[i]);
      if !ok {
        return;
      }
    }
    assert lines[|lines|..] == [];
  }
}
