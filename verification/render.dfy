/** A canonical ASE text for scenes, meshes and objects, used as the
    reference the parsers are checked against: reading the text back gives
    the value that was written.

    The layout follows the exporter's format (one record per line, a
    `{ ... }` block per object, mesh, vertex list and face list) without the
    records the reader skips.  Vertex lines carry their position as ordinal;
    face lines carry the face index and the three tagged corners.
    Coordinates are rendered by `show`, which must produce one token that
    `conv` reads back.
 */
module AseText {
  import opened Results
  import opened Text
  import opened LineScan
  import opened Faces
  import opened Vertices
  import AseMesh
  import AseObject
  import AseReader

  /** `show` renders a coordinate as one token that `conv` reads back. */
  ghost predicate Printer<T(!new)>(show: T -> string, conv: string -> Option<T>) {
    forall t :: IsWord(show(t)) && conv(show(t)) == Some(t)
  }

  const INDENT1 := "\t"
  const INDENT2 := "\t\t"
  const INDENT3 := "\t\t\t"

  predicate AllWords(ws: seq<string>) {
    forall i :: 0 <= i < |ws| ==> IsWord(ws[i])
  }

  /** One line: indentation, then the words separated by single spaces. */
  function Line(pad: string, ws: seq<string>): string {
    pad + Unwords(ws)
  }

  function OpenLine(pad: string, tag: string): string {
    Line(pad, [tag, "{"])
  }

  function CloseLine(pad: string): string {
    Line(pad, ["}"])
  }

  function VertexWords<T>(k: nat, v: Vertex<T>, show: T -> string): seq<string> {
    [AseMesh.MESH_VERTEX_HEADER, NatToString(k), show(v.x), show(v.y), show(v.z)]
  }

  function FaceWords(f: Face): seq<string> {
    [AseMesh.MESH_FACE_HEADER, NatToString(f.index) + ":",
     V1_HEADER, NatToString(f.v1), V2_HEADER, NatToString(f.v2), V3_HEADER, NatToString(f.v3)]
  }

  function VertexLines<T>(vs: seq<Vertex<T>>, show: T -> string): seq<string> {
    seq(|vs|, i requires 0 <= i < |vs| => Line(INDENT3, VertexWords(i, vs[i], show)))
  }

  function FaceLines(fs: seq<Face>): seq<string> {
    seq(|fs|, i requires 0 <= i < |fs| => Line(INDENT3, FaceWords(fs[i])))
  }

  function MeshHead<T>(m: AseMesh.Mesh<T>): seq<string> {
    [OpenLine(INDENT1, AseMesh.MESH_HEADER),
     Line(INDENT2, [AseMesh.MESH_NUMVERTEX_HEADER, NatToString(m.numVertices)]),
     Line(INDENT2, [AseMesh.MESH_NUMFACES_HEADER, NatToString(m.numFaces)]),
     OpenLine(INDENT2, AseMesh.MESH_VERTEX_LIST_HEADER)]
  }

  function MeshMiddle(): seq<string> {
    [CloseLine(INDENT2), OpenLine(INDENT2, AseMesh.MESH_FACE_LIST_HEADER)]
  }

  function MeshTail(): seq<string> {
    [CloseLine(INDENT2), CloseLine(INDENT1)]
  }

  /** The `*MESH { ... }` block of a mesh. */
  function MeshLines<T>(m: AseMesh.Mesh<T>, show: T -> string): seq<string> {
    MeshHead(m) + VertexLines(m.vertices, show) + MeshMiddle() + FaceLines(m.faces) + MeshTail()
  }

  /** Everything before the opening double quote of a name line. */
  const NAME_PREFIX := INDENT1 + AseObject.NODE_NAME_HEADER + " "

  function NameLine(name: string): string {
    NAME_PREFIX + "\"" + name + "\""
  }

  /** The opening lines of an object block, up to its name. */
  function ObjectHead(name: string): seq<string> {
    [OpenLine("", AseObject.HEADER), NameLine(name)]
  }

  /** The `*GEOMOBJECT { ... }` block of an object. */
  function ObjectLines<T>(o: AseObject.Object<T>, show: T -> string): seq<string> {
    ObjectHead(o.name) + MeshLines(o.mesh, show) + [CloseLine("")]
  }

  function SceneLines<T>(objs: seq<AseObject.Object<T>>, show: T -> string): seq<string> {
    if objs == [] then [] else ObjectLines(objs[0], show) + SceneLines(objs[1..], show)
  }

  function MeshSize<T>(m: AseMesh.Mesh<T>): nat {
    8 + |m.vertices| + |m.faces|
  }

  function ObjectSize<T>(o: AseObject.Object<T>): nat {
    3 + MeshSize(o.mesh)
  }

  function SceneSize<T>(objs: seq<AseObject.Object<T>>): nat {
    if objs == [] then 0 else ObjectSize(objs[0]) + SceneSize(objs[1..])
  }

  // ---------------------------------------------------------------------
  // What the parsers see of a line
  // ---------------------------------------------------------------------

  /** The tokens `operator>>` reads from the line are `ws`: the record tag
      `ws[0]`, then the fields.  `ShowsLine` proves it of the rendered
      lines and `Parse` draws the consequences the parsers rely on. */
  ghost predicate Shows(line: string, ws: seq<string>) {
    ws != [] && Tokenize(line) == ws
  }

  /** A block's closing line: the single token `}`, too short to hold any
      section marker. */
  ghost predicate Closes(line: string) {
    Shows(line, ["}"]) && |line| <= |INDENT3| + 1
  }

  /** Indentation followed by single tokens joined by spaces shows those
      tokens. */
  lemma {:induction false} ShowsLine(pad: string, ws: seq<string>)
    requires IsPad(pad) && ws != [] && AllWords(ws)
    ensures Shows(Line(pad, ws), ws)
  {
    TokenizeUnwords(pad, ws);
  }

  /** What the parsers take from a line that shows `ws`: the first token,
      the tokens after it, and the `find` test for the first token. */
  lemma {:induction false} Parse(line: string, ws: seq<string>)
    requires Shows(line, ws) && ws[0] != ""
    ensures FirstToken(line) == ws[0] && Args(line) == ws[1..]
    ensures Contains(line, ws[0])
  {
    FirstTokenContained(line);
  }

  /** The section markers are single tokens. */
  lemma {:induction false} MarkersAreWords()
    ensures IsWord(AseObject.HEADER) && IsWord(AseObject.NODE_NAME_HEADER)
    ensures IsWord(AseMesh.MESH_HEADER)
    ensures IsWord(AseMesh.MESH_NUMVERTEX_HEADER) && IsWord(AseMesh.MESH_NUMFACES_HEADER)
    ensures IsWord(AseMesh.MESH_VERTEX_LIST_HEADER) && IsWord(AseMesh.MESH_FACE_LIST_HEADER)
  {
  }

  lemma {:induction false} PairWords(a: string, b: string)
    requires IsWord(a) && IsWord(b)
    ensures AllWords([a, b])
  {
  }

  /** The line `tag {` that opens a block. */
  lemma {:induction false} OpenLineShows(pad: string, tag: string)
    requires IsPad(pad) && IsWord(tag)
    ensures Shows(OpenLine(pad, tag), [tag, "{"])
  {
    PairWords(tag, "{");
    assert OpenLine(pad, tag) == Line(pad, [tag, "{"]);
    ShowsLine(pad, [tag, "{"]);
  }

  /** A count line `tag n`. */
  lemma {:induction false} CountLineShows(pad: string, tag: string, n: nat)
    requires IsPad(pad) && IsWord(tag)
    ensures Shows(Line(pad, [tag, NatToString(n)]), [tag, NatToString(n)])
  {
    NumberAlone(n);
    PairWords(tag, NatToString(n));
    ShowsLine(pad, [tag, NatToString(n)]);
  }

  lemma {:induction false} CloseLineCloses(pad: string)
    requires IsPad(pad) && |pad| <= |INDENT3|
    ensures Closes(CloseLine(pad))
  {
    assert Unwords(["}"]) == "}";
    assert AllWords(["}"]);
    ShowsLine(pad, ["}"]);
  }

  /** A closing line holds none of the section markers. */
  lemma {:induction false} ClosesNoMarker(line: string, marker: string)
    requires Closes(line) && |marker| > |INDENT3| + 1
    ensures !Contains(line, marker)
    ensures FirstToken(line) != marker
  {
    ShortNotContains(line, marker);
    Parse(line, ["}"]);
  }

  lemma {:induction false} NumberWord(n: nat, sfx: string)
    requires forall i :: 0 <= i < |sfx| ==> !IsSpace(sfx[i])
    ensures IsWord(NatToString(n) + sfx)
  {
    var s := NatToString(n) + sfx;
    NatToStringDigits(n);
    forall i | 0 <= i < |s| ensures !IsSpace(s[i]) {
      if i < |NatToString(n)| {
        assert IsDigit(NatToString(n)[i]);
      }
    }
  }

  lemma {:induction false} NumberAlone(n: nat)
    ensures IsWord(NatToString(n))
  {
    NumberWord(n, "");
    assert NatToString(n) + "" == NatToString(n);
  }

  lemma {:induction false} VertexWordsAll<T>(k: nat, v: Vertex<T>, show: T -> string)
    requires forall t :: IsWord(show(t))
    ensures AllWords(VertexWords(k, v, show))
  {
    NumberAlone(k);
    assert IsWord(show(v.x)) && IsWord(show(v.y)) && IsWord(show(v.z));
  }

  lemma {:induction false} FaceWordsAll(f: Face)
    ensures AllWords(FaceWords(f))
  {
    NumberWord(f.index, ":");
    NumberAlone(f.v1);
    NumberAlone(f.v2);
    NumberAlone(f.v3);
  }

  lemma {:induction false} Regroup(a: string, b: string, c: string, d: string, e: string)
    ensures a + b + c + d + e == a + b + (c + d + e)
  {
  }

  /** The name line passes the `find` test for `*NODE_NAME`. */
  lemma {:induction false} NameLineFound(name: string)
    ensures Contains(NameLine(name), AseObject.NODE_NAME_HEADER)
  {
    Regroup(INDENT1, AseObject.NODE_NAME_HEADER, " ", "\"" + name, "\"");
    assert NAME_PREFIX + "\"" + name == NAME_PREFIX + ("\"" + name);
    ContainsMiddle(INDENT1, AseObject.NODE_NAME_HEADER, " " + ("\"" + name) + "\"");
  }

  /** The name line yields the name. */
  lemma {:induction false} NameLineNames(name: string)
    requires AseObject.FitsSize(NameLine(name))
    ensures AseObject.ExtractName(NameLine(name)) == name
  {
    assert '"' !in NAME_PREFIX;
    assert NameLine(name) + "" == NameLine(name);
    AseObject.NameBetweenQuotes(NAME_PREFIX, name, "");
  }

  // ---------------------------------------------------------------------
  // Blocks of lines, as the parsers see them
  // ---------------------------------------------------------------------

  /** Consecutive vertex lines from line `start`, with ordinals counting
      up from `first`. */
  ghost predicate VertexRun<T>(lines: seq<string>, start: nat, first: nat, vs: seq<Vertex<T>>, show: T -> string)
    decreases |vs|
  {
    && start + |vs| <= |lines|
    && (vs != [] ==>
          && Shows(lines[start], VertexWords(first, vs[0], show))
          && VertexRun(lines, start + 1, first + 1, vs[1..], show))
  }

  /** Consecutive face lines from line `start`. */
  ghost predicate FaceRun(lines: seq<string>, start: nat, fs: seq<Face>)
    decreases |fs|
  {
    && start + |fs| <= |lines|
    && (fs != [] ==> Shows(lines[start], FaceWords(fs[0])) && FaceRun(lines, start + 1, fs[1..]))
  }

  lemma {:induction false} VertexRunOfLines<T>(lines: seq<string>, start: nat, first: nat, vs: seq<Vertex<T>>,
                                               show: T -> string)
    requires start + |vs| <= |lines|
    requires forall i :: 0 <= i < |vs| ==> Shows(lines[start + i], VertexWords(first + i, vs[i], show))
    ensures VertexRun(lines, start, first, vs, show)
    decreases |vs|
  {
    if vs != [] {
      assert Shows(lines[start + 0], VertexWords(first + 0, vs[0], show));
      forall i | 0 <= i < |vs[1..]|
        ensures Shows(lines[start + 1 + i], VertexWords(first + 1 + i, vs[1..][i], show))
      {
        assert Shows(lines[start + (i + 1)], VertexWords(first + (i + 1), vs[i + 1], show));
      }
      VertexRunOfLines(lines, start + 1, first + 1, vs[1..], show);
    }
  }

  lemma {:induction false} VertexRunLines<T>(lines: seq<string>, start: nat, first: nat, vs: seq<Vertex<T>>,
                                             show: T -> string)
    requires VertexRun(lines, start, first, vs, show)
    ensures start + |vs| <= |lines|
    ensures forall i :: 0 <= i < |vs| ==> Shows(lines[start + i], VertexWords(first + i, vs[i], show))
    decreases |vs|
  {
    if vs != [] {
      VertexRunLines(lines, start + 1, first + 1, vs[1..], show);
      forall i | 0 <= i < |vs|
        ensures Shows(lines[start + i], VertexWords(first + i, vs[i], show))
      {
        if i > 0 {
          assert Shows(lines[start + 1 + (i - 1)], VertexWords(first + 1 + (i - 1), vs[1..][i - 1], show));
        }
      }
    }
  }

  lemma {:induction false} FaceRunOfLines(lines: seq<string>, start: nat, fs: seq<Face>)
    requires start + |fs| <= |lines|
    requires forall i :: 0 <= i < |fs| ==> Shows(lines[start + i], FaceWords(fs[i]))
    ensures FaceRun(lines, start, fs)
    decreases |fs|
  {
    if fs != [] {
      assert Shows(lines[start + 0], FaceWords(fs[0]));
      forall i | 0 <= i < |fs[1..]|
        ensures Shows(lines[start + 1 + i], FaceWords(fs[1..][i]))
      {
        assert Shows(lines[start + (i + 1)], FaceWords(fs[i + 1]));
      }
      FaceRunOfLines(lines, start + 1, fs[1..]);
    }
  }

  lemma {:induction false} FaceRunLines(lines: seq<string>, start: nat, fs: seq<Face>)
    requires FaceRun(lines, start, fs)
    ensures start + |fs| <= |lines|
    ensures forall i :: 0 <= i < |fs| ==> Shows(lines[start + i], FaceWords(fs[i]))
    decreases |fs|
  {
    if fs != [] {
      FaceRunLines(lines, start + 1, fs[1..]);
      forall i | 0 <= i < |fs|
        ensures Shows(lines[start + i], FaceWords(fs[i]))
      {
        if i > 0 {
          assert Shows(lines[start + 1 + (i - 1)], FaceWords(fs[1..][i - 1]));
        }
      }
    }
  }

  ghost predicate MeshAt<T>(lines: seq<string>, at: nat, m: AseMesh.Mesh<T>, show: T -> string) {
    var nv := |m.vertices|;
    var nf := |m.faces|;
    && at + MeshSize(m) <= |lines|
    && Shows(lines[at], [AseMesh.MESH_HEADER, "{"])
    && Shows(lines[at + 1], [AseMesh.MESH_NUMVERTEX_HEADER, NatToString(m.numVertices)])
    && Shows(lines[at + 2], [AseMesh.MESH_NUMFACES_HEADER, NatToString(m.numFaces)])
    && Shows(lines[at + 3], [AseMesh.MESH_VERTEX_LIST_HEADER, "{"])
    && VertexRun(lines, at + 4, 0, m.vertices, show)
    && Closes(lines[at + 4 + nv])
    && Shows(lines[at + 5 + nv], [AseMesh.MESH_FACE_LIST_HEADER, "{"])
    && FaceRun(lines, at + 6 + nv, m.faces)
    && Closes(lines[at + 6 + nv + nf])
    && Closes(lines[at + 7 + nv + nf])
  }

  /** What `readName` takes from a line: it passes the `find` test for
      `*NODE_NAME`, and the text between its quotes is `name`. */
  ghost predicate Names(line: string, name: string) {
    Contains(line, AseObject.NODE_NAME_HEADER) && AseObject.ExtractName(line) == name
  }

  ghost predicate ObjectAt<T>(lines: seq<string>, at: nat, o: AseObject.Object<T>, show: T -> string) {
    && at + ObjectSize(o) <= |lines|
    && Shows(lines[at], [AseObject.HEADER, "{"])
    && Names(lines[at + 1], o.name)
    && MeshAt(lines, at + 2, o.mesh, show)
    && Closes(lines[at + 2 + MeshSize(o.mesh)])
  }

  // ---------------------------------------------------------------------
  // The rendered text has those views
  // ---------------------------------------------------------------------

  /** `block` stands in `lines` from index `at` on. */
  ghost predicate BlockAt(lines: seq<string>, at: nat, block: seq<string>) {
    at + |block| <= |lines| && forall j :: 0 <= j < |block| ==> lines[at + j] == block[j]
  }

  lemma {:induction false} BlockOf(pre: seq<string>, block: seq<string>, post: seq<string>)
    ensures BlockAt(pre + block + post, |pre|, block)
  {
    var lines := pre + block + post;
    forall j | 0 <= j < |block| ensures lines[|pre| + j] == block[j] {
    }
  }

  /** `block` is `a` followed by `b`, with `b` from line `mid` on. */
  lemma {:induction false} BlockSplit(lines: seq<string>, at: nat, a: seq<string>, b: seq<string>, mid: nat)
    requires mid == at + |a|
    requires BlockAt(lines, at, a + b)
    ensures BlockAt(lines, at, a) && BlockAt(lines, mid, b)
  {
    forall j | 0 <= j < |a| ensures lines[at + j] == a[j] {
      assert (a + b)[j] == a[j];
    }
    forall j | 0 <= j < |b| ensures lines[mid + j] == b[j] {
      assert (a + b)[|a| + j] == b[j];
      assert lines[at + (|a| + j)] == (a + b)[|a| + j];
    }
  }

  /** Line `k` is line `j` of the block. */
  lemma {:induction false} BlockLine(lines: seq<string>, at: nat, block: seq<string>, j: nat, k: nat)
    requires BlockAt(lines, at, block) && j < |block| && k == at + j
    ensures k < |lines| && lines[k] == block[j]
  {
  }

  lemma {:induction false} HeadShows<T>(lines: seq<string>, at: nat, m: AseMesh.Mesh<T>)
    requires BlockAt(lines, at, MeshHead(m))
    ensures at + 4 <= |lines|
    ensures Shows(lines[at], [AseMesh.MESH_HEADER, "{"])
    ensures Shows(lines[at + 1], [AseMesh.MESH_NUMVERTEX_HEADER, NatToString(m.numVertices)])
    ensures Shows(lines[at + 2], [AseMesh.MESH_NUMFACES_HEADER, NatToString(m.numFaces)])
    ensures Shows(lines[at + 3], [AseMesh.MESH_VERTEX_LIST_HEADER, "{"])
  {
    var head := MeshHead(m);
    BlockLine(lines, at, head, 0, at);
    BlockLine(lines, at, head, 1, at + 1);
    BlockLine(lines, at, head, 2, at + 2);
    BlockLine(lines, at, head, 3, at + 3);
    MarkersAreWords();
    OpenLineShows(INDENT1, AseMesh.MESH_HEADER);
    CountLineShows(INDENT2, AseMesh.MESH_NUMVERTEX_HEADER, m.numVertices);
    CountLineShows(INDENT2, AseMesh.MESH_NUMFACES_HEADER, m.numFaces);
    OpenLineShows(INDENT2, AseMesh.MESH_VERTEX_LIST_HEADER);
  }

  lemma {:induction false} VertexLinesShow<T>(lines: seq<string>, at: nat, vs: seq<Vertex<T>>, show: T -> string)
    requires forall t :: IsWord(show(t))
    requires BlockAt(lines, at, VertexLines(vs, show))
    ensures VertexRun(lines, at, 0, vs, show)
  {
    forall i | 0 <= i < |vs|
      ensures Shows(lines[at + i], VertexWords(0 + i, vs[i], show))
    {
      BlockLine(lines, at, VertexLines(vs, show), i, at + i);
      VertexWordsAll(i, vs[i], show);
      ShowsLine(INDENT3, VertexWords(i, vs[i], show));
    }
    VertexRunOfLines(lines, at, 0, vs, show);
  }

  lemma {:induction false} FaceLinesShow(lines: seq<string>, at: nat, fs: seq<Face>)
    requires BlockAt(lines, at, FaceLines(fs))
    ensures FaceRun(lines, at, fs)
  {
    forall i | 0 <= i < |fs|
      ensures Shows(lines[at + i], FaceWords(fs[i]))
    {
      BlockLine(lines, at, FaceLines(fs), i, at + i);
      FaceWordsAll(fs[i]);
      ShowsLine(INDENT3, FaceWords(fs[i]));
    }
    FaceRunOfLines(lines, at, fs);
  }

  lemma {:induction false} MiddleShows(lines: seq<string>, at: nat, next: nat)
    requires next == at + 1
    requires BlockAt(lines, at, MeshMiddle())
    ensures next < |lines|
    ensures Closes(lines[at])
    ensures Shows(lines[next], [AseMesh.MESH_FACE_LIST_HEADER, "{"])
  {
    BlockLine(lines, at, MeshMiddle(), 0, at);
    BlockLine(lines, at, MeshMiddle(), 1, next);
    CloseLineCloses(INDENT2);
    MarkersAreWords();
    OpenLineShows(INDENT2, AseMesh.MESH_FACE_LIST_HEADER);
  }

  lemma {:induction false} TailShows(lines: seq<string>, at: nat, next: nat)
    requires next == at + 1
    requires BlockAt(lines, at, MeshTail())
    ensures next < |lines|
    ensures Closes(lines[at]) && Closes(lines[next])
  {
    BlockLine(lines, at, MeshTail(), 0, at);
    BlockLine(lines, at, MeshTail(), 1, next);
    CloseLineCloses(INDENT2);
    CloseLineCloses(INDENT1);
  }

  lemma {:induction false} SceneLinesSize<T>(objs: seq<AseObject.Object<T>>, show: T -> string)
    ensures |SceneLines(objs, show)| == SceneSize(objs)
    decreases |objs|
  {
    if objs != [] {
      SceneLinesSize(objs[1..], show);
    }
  }

  /** The head and the vertex lines of a mesh block. */
  lemma {:induction false} MeshHeadVertsShow<T>(lines: seq<string>, at: nat, m: AseMesh.Mesh<T>, show: T -> string)
    requires forall t :: IsWord(show(t))
    requires BlockAt(lines, at, MeshHead(m) + VertexLines(m.vertices, show))
    ensures Shows(lines[at], [AseMesh.MESH_HEADER, "{"])
    ensures Shows(lines[at + 1], [AseMesh.MESH_NUMVERTEX_HEADER, NatToString(m.numVertices)])
    ensures Shows(lines[at + 2], [AseMesh.MESH_NUMFACES_HEADER, NatToString(m.numFaces)])
    ensures Shows(lines[at + 3], [AseMesh.MESH_VERTEX_LIST_HEADER, "{"])
    ensures VertexRun(lines, at + 4, 0, m.vertices, show)
  {
    BlockSplit(lines, at, MeshHead(m), VertexLines(m.vertices, show), at + 4);
    HeadShows(lines, at, m);
    VertexLinesShow(lines, at + 4, m.vertices, show);
  }

  /** The head, the vertex lines and the middle of a mesh block. */
  lemma {:induction false} MeshFrontShows<T>(lines: seq<string>, at: nat, m: AseMesh.Mesh<T>, show: T -> string)
    requires forall t :: IsWord(show(t))
    requires BlockAt(lines, at, MeshHead(m) + VertexLines(m.vertices, show) + MeshMiddle())
    ensures at + 6 + |m.vertices| <= |lines|
    ensures Shows(lines[at], [AseMesh.MESH_HEADER, "{"])
    ensures Shows(lines[at + 1], [AseMesh.MESH_NUMVERTEX_HEADER, NatToString(m.numVertices)])
    ensures Shows(lines[at + 2], [AseMesh.MESH_NUMFACES_HEADER, NatToString(m.numFaces)])
    ensures Shows(lines[at + 3], [AseMesh.MESH_VERTEX_LIST_HEADER, "{"])
    ensures VertexRun(lines, at + 4, 0, m.vertices, show)
    ensures Closes(lines[at + 4 + |m.vertices|])
    ensures Shows(lines[at + 5 + |m.vertices|], [AseMesh.MESH_FACE_LIST_HEADER, "{"])
  {
    BlockSplit(lines, at, MeshHead(m) + VertexLines(m.vertices, show), MeshMiddle(), at + 4 + |m.vertices|);
    MeshHeadVertsShow(lines, at, m, show);
    MiddleShows(lines, at + 4 + |m.vertices|, at + 5 + |m.vertices|);
  }

  lemma {:induction false} MeshLinesShow<T>(lines: seq<string>, at: nat, m: AseMesh.Mesh<T>, show: T -> string)
    requires forall t :: IsWord(show(t))
    requires BlockAt(lines, at, MeshLines(m, show))
    ensures MeshAt(lines, at, m, show)
  {
    var front := MeshHead(m) + VertexLines(m.vertices, show) + MeshMiddle();
    var faces := FaceLines(m.faces);
    BlockSplit(lines, at, front + faces, MeshTail(), at + 6 + |m.vertices| + |m.faces|);
    BlockSplit(lines, at, front, faces, at + 6 + |m.vertices|);
    MeshFrontShows(lines, at, m, show);
    FaceLinesShow(lines, at + 6 + |m.vertices|, m.faces);
    TailShows(lines, at + 6 + |m.vertices| + |m.faces|, at + 7 + |m.vertices| + |m.faces|);
  }

  lemma {:induction false} MeshLinesSize<T>(m: AseMesh.Mesh<T>, show: T -> string)
    ensures |MeshLines(m, show)| == MeshSize(m)
  {
  }

  lemma {:induction false} ObjectLinesSize<T>(o: AseObject.Object<T>, show: T -> string)
    ensures |ObjectLines(o, show)| == ObjectSize(o)
  {
    MeshLinesSize(o.mesh, show);
  }

  lemma {:induction false} ObjectHeadShows(lines: seq<string>, at: nat, name: string)
    requires AseObject.FitsSize(NameLine(name))
    requires BlockAt(lines, at, ObjectHead(name))
    ensures at + 2 <= |lines|
    ensures Shows(lines[at], [AseObject.HEADER, "{"])
    ensures Names(lines[at + 1], name)
  {
    BlockLine(lines, at, ObjectHead(name), 0, at);
    BlockLine(lines, at, ObjectHead(name), 1, at + 1);
    MarkersAreWords();
    OpenLineShows("", AseObject.HEADER);
    NameLineFound(name);
    NameLineNames(name);
  }

  lemma {:induction false} ObjectLinesShow<T>(lines: seq<string>, at: nat, o: AseObject.Object<T>, show: T -> string)
    requires forall t :: IsWord(show(t))
    requires AseObject.FitsSize(NameLine(o.name))
    requires BlockAt(lines, at, ObjectLines(o, show))
    ensures ObjectAt(lines, at, o, show)
  {
    var last := at + 2 + MeshSize(o.mesh);
    ObjectBlocks(lines, at, o, show, last);
    ObjectHeadShows(lines, at, o.name);
    MeshLinesShow(lines, at + 2, o.mesh, show);
    CloseLineCloses("");
  }

  /** The three parts of an object's block: its head, its mesh, its closing line. */
  lemma {:induction false} ObjectBlocks<T>(lines: seq<string>, at: nat, o: AseObject.Object<T>, show: T -> string, last: nat)
    requires BlockAt(lines, at, ObjectLines(o, show))
    requires last == at + 2 + MeshSize(o.mesh)
    ensures BlockAt(lines, at, ObjectHead(o.name))
    ensures BlockAt(lines, at + 2, MeshLines(o.mesh, show))
    ensures last < |lines| && lines[last] == CloseLine("")
  {
    var head := ObjectHead(o.name);
    var ml := MeshLines(o.mesh, show);
    var close := [CloseLine("")];
    MeshLinesSize(o.mesh, show);
    BlockSplit(lines, at, head + ml, close, last);
    BlockSplit(lines, at, head, ml, at + 2);
    BlockLine(lines, last, close, 0, last);
  }

  // ---------------------------------------------------------------------
  // Reading blocks back
  // ---------------------------------------------------------------------

  lemma {:induction false} FoundHere(lines: seq<string>, k: nat, marker: string)
    requires k < |lines| && Contains(lines[k], marker)
    ensures FindLine(lines, k, marker) == Some(k)
  {
  }

  /** The first line from `from` that contains `marker` is line `k`. */
  lemma {:induction false} FoundAt(lines: seq<string>, from: nat, k: nat, marker: string)
    requires from <= k < |lines| && Contains(lines[k], marker)
    requires NoneContain(lines, from, k, marker)
    ensures FindLine(lines, from, marker) == Some(k)
  {
  }

  lemma {:induction false} CountLineRead(lines: seq<string>, k: nat, next: nat, tag: string, n: nat, missing: MeshFailure)
    requires tag != "" && next == k + 1
    requires k < |lines| && Shows(lines[k], [tag, NatToString(n)])
    ensures AseMesh.ReadCount(lines, k, tag, missing) == Ok((n, next))
  {
    Parse(lines[k], [tag, NatToString(n)]);
    assert NatToString(n) + "" == NatToString(n);
    assert [NatToString(n) + ""] + [] == [NatToString(n)];
    ReadNatOfText(n, "", []);
  }

  lemma {:induction false} VertexLineRead<T(!new)>(line: string, k: nat, v: Vertex<T>, zero: T, conv: string -> Option<T>,
                                show: T -> string)
    requires Printer(show, conv)
    requires Shows(line, VertexWords(k, v, show))
    ensures FirstToken(line) == AseMesh.MESH_VERTEX_HEADER
    ensures ParseVertex(Args(line), zero, conv) == v
  {
    var ws := VertexWords(k, v, show);
    Parse(line, ws);
    assert ws[1..] == [NatToString(k), show(v.x), show(v.y), show(v.z)];
    VertexRoundTrip(k, v, zero, conv, show);
  }

  /** A list's opening line: its records start on the next line. */
  lemma {:induction false} ListOpenFound(lines: seq<string>, from: nat, marker: string)
    requires marker != ""
    requires from < |lines| && Shows(lines[from], [marker, "{"])
    ensures AseMesh.ListStartOf(lines, from, marker) == from + 1
  {
    Parse(lines[from], [marker, "{"]);
    FoundHere(lines, from, marker);
  }

  /** Tagged lines followed by a closing line form a maximal run. */
  lemma {:induction false} RunEndsAtClose(lines: seq<string>, start: nat, n: nat, tag: string)
    requires start + n < |lines| && |tag| > |INDENT3| + 1
    requires forall i {:trigger FirstToken(lines[i])} :: start <= i < start + n ==> FirstToken(lines[i]) == tag
    requires Closes(lines[start + n])
    ensures IsMaximalRun(lines, start, n, tag)
  {
    ClosesNoMarker(lines[start + n], tag);
  }

  lemma {:induction false} VertexRunTagged<T>(lines: seq<string>, start: nat, vs: seq<Vertex<T>>, show: T -> string)
    requires VertexRun(lines, start, 0, vs, show)
    ensures forall i {:trigger FirstToken(lines[i])} :: start <= i < start + |vs| ==> FirstToken(lines[i]) == AseMesh.MESH_VERTEX_HEADER
  {
    VertexRunLines(lines, start, 0, vs, show);
    forall k | start <= k < start + |vs| ensures FirstToken(lines[k]) == AseMesh.MESH_VERTEX_HEADER {
      var i := k - start;
      assert Shows(lines[start + i], VertexWords(0 + i, vs[i], show));
      Parse(lines[k], VertexWords(i, vs[i], show));
    }
  }

  lemma {:induction false} VertexRunValues<T(!new)>(lines: seq<string>, from: nat, vs: seq<Vertex<T>>, zero: T,
                                 conv: string -> Option<T>, show: T -> string)
    requires Printer(show, conv)
    requires VertexRun(lines, from + 1, 0, vs, show)
    ensures forall i :: 0 <= i < |vs| ==> ParseVertex(Args(lines[from + 1 + i]), zero, conv) == vs[i]
  {
    VertexRunLines(lines, from + 1, 0, vs, show);
    forall i | 0 <= i < |vs| ensures ParseVertex(Args(lines[from + 1 + i]), zero, conv) == vs[i] {
      assert Shows(lines[from + 1 + i], VertexWords(0 + i, vs[i], show));
      VertexLineRead(lines[from + 1 + i], i, vs[i], zero, conv, show);
    }
  }

  lemma {:induction false} VertexRunCollected<T>(lines: seq<string>, from: nat, vs: seq<Vertex<T>>, zero: T, conv: string -> Option<T>)
    requires from + 1 + |vs| < |lines|
    requires AseMesh.ListStartOf(lines, from, AseMesh.MESH_VERTEX_LIST_HEADER) == from + 1
    requires IsMaximalRun(lines, from + 1, |vs|, AseMesh.MESH_VERTEX_HEADER)
    requires forall i :: 0 <= i < |vs| ==> ParseVertex(Args(lines[from + 1 + i]), zero, conv) == vs[i]
    ensures AseMesh.ReadVertexList(lines, from, zero, conv) == (vs, Pos(from + 2 + |vs|, false))
  {
    var r := AseMesh.ReadVertexList(lines, from, zero, conv);
    AseMesh.VertexListRun(lines, from, from + 1, zero, conv);
    assert IsMaximalRun(lines, from + 1, |r.0|, AseMesh.MESH_VERTEX_HEADER);
    MaximalRunUnique(lines, from + 1, |r.0|, |vs|, AseMesh.MESH_VERTEX_HEADER);
    VertexValues(lines, from, vs, zero, conv);
  }

  lemma {:induction false} VertexValues<T>(lines: seq<string>, from: nat, vs: seq<Vertex<T>>, zero: T, conv: string -> Option<T>)
    requires from + 1 + |vs| < |lines|
    requires AseMesh.ListStartOf(lines, from, AseMesh.MESH_VERTEX_LIST_HEADER) == from + 1
    requires |AseMesh.ReadVertexList(lines, from, zero, conv).0| == |vs|
    requires forall i :: 0 <= i < |vs| ==> ParseVertex(Args(lines[from + 1 + i]), zero, conv) == vs[i]
    ensures AseMesh.ReadVertexList(lines, from, zero, conv).0 == vs
  {
    var r := AseMesh.ReadVertexList(lines, from, zero, conv);
    AseMesh.VertexListRun(lines, from, from + 1, zero, conv);
    forall i | 0 <= i < |vs| ensures r.0[i] == vs[i] {
      assert r.0[i] == ParseVertex(Args(lines[from + 1 + i]), zero, conv);
    }
  }

  /** The opening line of a vertex list, then vertex lines up to a closing
      line: the records start after the opening line and form a maximal
      run. */
  lemma {:induction false} VertexListOpen<T>(lines: seq<string>, from: nat, vs: seq<Vertex<T>>, show: T -> string)
    requires from + 1 + |vs| < |lines|
    requires Shows(lines[from], [AseMesh.MESH_VERTEX_LIST_HEADER, "{"])
    requires VertexRun(lines, from + 1, 0, vs, show)
    requires Closes(lines[from + 1 + |vs|])
    ensures AseMesh.ListStartOf(lines, from, AseMesh.MESH_VERTEX_LIST_HEADER) == from + 1
    ensures IsMaximalRun(lines, from + 1, |vs|, AseMesh.MESH_VERTEX_HEADER)
  {
    ListOpenFound(lines, from, AseMesh.MESH_VERTEX_LIST_HEADER);
    VertexRunMaximal(lines, from + 1, vs, show);
  }

  /** Vertex lines followed by a closing line form a maximal run. */
  lemma {:induction false} VertexRunMaximal<T>(lines: seq<string>, start: nat, vs: seq<Vertex<T>>, show: T -> string)
    requires start + |vs| < |lines|
    requires VertexRun(lines, start, 0, vs, show)
    requires Closes(lines[start + |vs|])
    ensures IsMaximalRun(lines, start, |vs|, AseMesh.MESH_VERTEX_HEADER)
  {
    VertexRunTagged(lines, start, vs, show);
    RunEndsAtClose(lines, start, |vs|, AseMesh.MESH_VERTEX_HEADER);
  }

  lemma {:induction false} VertexRunRead<T(!new)>(lines: seq<string>, from: nat, vs: seq<Vertex<T>>, zero: T,
                               conv: string -> Option<T>, show: T -> string)
    requires Printer(show, conv)
    requires from + 1 + |vs| < |lines|
    requires AseMesh.ListStartOf(lines, from, AseMesh.MESH_VERTEX_LIST_HEADER) == from + 1
    requires IsMaximalRun(lines, from + 1, |vs|, AseMesh.MESH_VERTEX_HEADER)
    requires VertexRun(lines, from + 1, 0, vs, show)
    ensures AseMesh.ReadVertexList(lines, from, zero, conv) == (vs, Pos(from + 2 + |vs|, false))
  {
    VertexRunValues(lines, from, vs, zero, conv, show);
    VertexRunCollected(lines, from, vs, zero, conv);
  }

  /** A vertex list block, from its opening line to its closing line. */
  lemma {:induction false} VertexListRead<T(!new)>(lines: seq<string>, from: nat, start: nat, end: nat, vs: seq<Vertex<T>>, zero: T,
                                conv: string -> Option<T>, show: T -> string)
    requires Printer(show, conv)
    requires start == from + 1 && end == start + 1 + |vs|
    requires start + |vs| < |lines|
    requires Shows(lines[from], [AseMesh.MESH_VERTEX_LIST_HEADER, "{"])
    requires VertexRun(lines, start, 0, vs, show)
    requires Closes(lines[start + |vs|])
    ensures AseMesh.ReadVertexList(lines, from, zero, conv) == (vs, Pos(end, false))
  {
    VertexListOpen(lines, from, vs, show);
    VertexRunRead(lines, from, vs, zero, conv, show);
  }

  lemma {:induction false} FaceLineRead(line: string, f: Face)
    requires Shows(line, FaceWords(f))
    ensures FirstToken(line) == AseMesh.MESH_FACE_HEADER
    ensures ParseFace(Args(line)) == f
  {
    var ws := FaceWords(f);
    Parse(line, ws);
    var items := [Tagged(A, f.v1), Tagged(B, f.v2), Tagged(C, f.v3)];
    ThreeItemTokens(items[0], items[1], items[2]);
    assert ws[1..] == [NatToString(f.index) + ":"] + ItemTokens(items);
    ThreeCorners(items[0], items[1], items[2]);
    assert IndexSuffix(":");
    ParseFaceOfItems(f.index, ":", items);
    ConsistentLastValue(items, A, 0, 0);
    ConsistentLastValue(items, B, 0, 1);
    ConsistentLastValue(items, C, 0, 2);
  }

  lemma {:induction false} FaceRunTagged(lines: seq<string>, start: nat, fs: seq<Face>)
    requires FaceRun(lines, start, fs)
    ensures forall i {:trigger FirstToken(lines[i])} :: start <= i < start + |fs| ==> FirstToken(lines[i]) == AseMesh.MESH_FACE_HEADER
  {
    FaceRunLines(lines, start, fs);
    forall k | start <= k < start + |fs| ensures FirstToken(lines[k]) == AseMesh.MESH_FACE_HEADER {
      var i := k - start;
      assert Shows(lines[start + i], FaceWords(fs[i]));
      FaceLineRead(lines[k], fs[i]);
    }
  }

  lemma {:induction false} FaceRunValues(lines: seq<string>, from: nat, fs: seq<Face>)
    requires FaceRun(lines, from + 1, fs)
    ensures forall i :: 0 <= i < |fs| ==> ParseFace(Args(lines[from + 1 + i])) == fs[i]
  {
    FaceRunLines(lines, from + 1, fs);
    forall i | 0 <= i < |fs| ensures ParseFace(Args(lines[from + 1 + i])) == fs[i] {
      FaceLineRead(lines[from + 1 + i], fs[i]);
    }
  }

  lemma {:induction false} FaceRunCollected(lines: seq<string>, from: nat, fs: seq<Face>)
    requires from + 1 + |fs| < |lines|
    requires AseMesh.ListStartOf(lines, from, AseMesh.MESH_FACE_LIST_HEADER) == from + 1
    requires IsMaximalRun(lines, from + 1, |fs|, AseMesh.MESH_FACE_HEADER)
    requires forall i :: 0 <= i < |fs| ==> ParseFace(Args(lines[from + 1 + i])) == fs[i]
    ensures AseMesh.ReadFaceList(lines, from) == (fs, Pos(from + 2 + |fs|, false))
  {
    var r := AseMesh.ReadFaceList(lines, from);
    AseMesh.FaceListRun(lines, from, from + 1);
    assert IsMaximalRun(lines, from + 1, |r.0|, AseMesh.MESH_FACE_HEADER);
    MaximalRunUnique(lines, from + 1, |r.0|, |fs|, AseMesh.MESH_FACE_HEADER);
    FaceValues(lines, from, fs);
  }

  lemma {:induction false} FaceValues(lines: seq<string>, from: nat, fs: seq<Face>)
    requires from + 1 + |fs| < |lines|
    requires AseMesh.ListStartOf(lines, from, AseMesh.MESH_FACE_LIST_HEADER) == from + 1
    requires |AseMesh.ReadFaceList(lines, from).0| == |fs|
    requires forall i :: 0 <= i < |fs| ==> ParseFace(Args(lines[from + 1 + i])) == fs[i]
    ensures AseMesh.ReadFaceList(lines, from).0 == fs
  {
    var r := AseMesh.ReadFaceList(lines, from);
    AseMesh.FaceListRun(lines, from, from + 1);
    forall i | 0 <= i < |fs| ensures r.0[i] == fs[i] {
      assert r.0[i] == ParseFace(Args(lines[from + 1 + i]));
    }
  }

  /** The opening line of a face list, then face lines up to a closing
      line: the records start after the opening line and form a maximal
      run. */
  lemma {:induction false} FaceListOpen(lines: seq<string>, from: nat, fs: seq<Face>)
    requires from + 1 + |fs| < |lines|
    requires Shows(lines[from], [AseMesh.MESH_FACE_LIST_HEADER, "{"])
    requires FaceRun(lines, from + 1, fs)
    requires Closes(lines[from + 1 + |fs|])
    ensures AseMesh.ListStartOf(lines, from, AseMesh.MESH_FACE_LIST_HEADER) == from + 1
    ensures IsMaximalRun(lines, from + 1, |fs|, AseMesh.MESH_FACE_HEADER)
  {
    ListOpenFound(lines, from, AseMesh.MESH_FACE_LIST_HEADER);
    FaceRunMaximal(lines, from + 1, fs);
  }

  /** Face lines followed by a closing line form a maximal run. */
  lemma {:induction false} FaceRunMaximal(lines: seq<string>, start: nat, fs: seq<Face>)
    requires start + |fs| < |lines|
    requires FaceRun(lines, start, fs)
    requires Closes(lines[start + |fs|])
    ensures IsMaximalRun(lines, start, |fs|, AseMesh.MESH_FACE_HEADER)
  {
    FaceRunTagged(lines, start, fs);
    RunEndsAtClose(lines, start, |fs|, AseMesh.MESH_FACE_HEADER);
  }

  lemma {:induction false} FaceRunRead(lines: seq<string>, from: nat, fs: seq<Face>)
    requires from + 1 + |fs| < |lines|
    requires AseMesh.ListStartOf(lines, from, AseMesh.MESH_FACE_LIST_HEADER) == from + 1
    requires IsMaximalRun(lines, from + 1, |fs|, AseMesh.MESH_FACE_HEADER)
    requires FaceRun(lines, from + 1, fs)
    ensures AseMesh.ReadFaceList(lines, from) == (fs, Pos(from + 2 + |fs|, false))
  {
    FaceRunValues(lines, from, fs);
    FaceRunCollected(lines, from, fs);
  }

  /** A face list block, from its opening line to its closing line. */
  lemma {:induction false} FaceListRead(lines: seq<string>, from: nat, start: nat, end: nat, fs: seq<Face>)
    requires start == from + 1 && end == start + 1 + |fs|
    requires start + |fs| < |lines|
    requires Shows(lines[from], [AseMesh.MESH_FACE_LIST_HEADER, "{"])
    requires FaceRun(lines, start, fs)
    requires Closes(lines[start + |fs|])
    ensures AseMesh.ReadFaceList(lines, from) == (fs, Pos(end, false))
  {
    FaceListOpen(lines, from, fs);
    FaceRunRead(lines, from, fs);
  }

  /** The mesh header and the two count lines give the declared counts. */
  lemma {:induction false} MeshCountsRead<T>(lines: seq<string>, at: nat, m: AseMesh.Mesh<T>, show: T -> string)
    requires MeshAt(lines, at, m, show)
    ensures AseMesh.ReadCounts(lines, at) == Ok((m.numVertices, m.numFaces, at + 3))
  {
    Parse(lines[at], [AseMesh.MESH_HEADER, "{"]);
    FoundHere(lines, at, AseMesh.MESH_HEADER);
    MeshHeaderHere(lines, at);
    CountLineRead(lines, at + 1, at + 2, AseMesh.MESH_NUMVERTEX_HEADER, m.numVertices, NoVertexCount);
    CountLineRead(lines, at + 2, at + 3, AseMesh.MESH_NUMFACES_HEADER, m.numFaces, NoFaceCount);
    CountLinesOf(lines, at + 1, m.numVertices, m.numFaces);
    CountsOf(lines, at, m.numVertices, m.numFaces);
  }

  /** The header stage of the mesh reader, from what each of its steps
      finds. */
  lemma {:induction false} CountsOf(lines: seq<string>, at: nat, nv: nat, nf: nat)
    requires at < |lines|
    requires AseMesh.MoveToMeshHeader(lines, at) == Ok(at + 1)
    requires AseMesh.ReadCountLines(lines, at + 1) == Ok((nv, nf, at + 3))
    ensures AseMesh.ReadCounts(lines, at) == Ok((nv, nf, at + 3))
  {
  }

  lemma {:induction false} MeshHeaderHere(lines: seq<string>, at: nat)
    requires at < |lines| && FindLine(lines, at, AseMesh.MESH_HEADER) == Some(at)
    ensures AseMesh.MoveToMeshHeader(lines, at) == Ok(at + 1)
  {
  }

  lemma {:induction false} CountLinesOf(lines: seq<string>, k: nat, nv: nat, nf: nat)
    requires k < |lines|
    requires AseMesh.ReadCount(lines, k, AseMesh.MESH_NUMVERTEX_HEADER, NoVertexCount) == Ok((nv, k + 1))
    requires AseMesh.ReadCount(lines, k + 1, AseMesh.MESH_NUMFACES_HEADER, NoFaceCount) == Ok((nf, k + 2))
    ensures AseMesh.ReadCountLines(lines, k) == Ok((nv, nf, k + 2))
  {
  }

  /** The list stage of the mesh reader for a mesh block at `at`, from what
      each list read finds. */
  lemma {:induction false} ListsOf<T>(lines: seq<string>, at: nat, m: AseMesh.Mesh<T>, zero: T, conv: string -> Option<T>, end: nat)
    requires at + 5 + |m.vertices| <= |lines|
    requires AseMesh.Consistent(m) && m.precision == AseMesh.DEFAULT_PRECISION
    requires AseMesh.ReadVertexList(lines, at + 3, zero, conv) == (m.vertices, Pos(at + 5 + |m.vertices|, false))
    requires AseMesh.ReadFaceList(lines, at + 5 + |m.vertices|) == (m.faces, Pos(end, false))
    ensures AseMesh.ReadLists(lines, at + 3, m.numVertices, m.numFaces, zero, conv) == Ok((m, Pos(end, false)))
  {
    assert m == AseMesh.Mesh(AseMesh.DEFAULT_PRECISION, m.numVertices, m.numFaces, m.vertices, m.faces);
  }

  /** The vertex list block of a mesh block. */
  lemma {:induction false} MeshVerticesRead<T(!new)>(lines: seq<string>, at: nat, m: AseMesh.Mesh<T>, zero: T, conv: string -> Option<T>,
                                  show: T -> string)
    requires Printer(show, conv)
    requires at + 4 + |m.vertices| < |lines|
    requires Shows(lines[at + 3], [AseMesh.MESH_VERTEX_LIST_HEADER, "{"])
    requires VertexRun(lines, at + 4, 0, m.vertices, show)
    requires Closes(lines[at + 4 + |m.vertices|])
    ensures AseMesh.ReadVertexList(lines, at + 3, zero, conv) == (m.vertices, Pos(at + 5 + |m.vertices|, false))
  {
    VertexListRead(lines, at + 3, at + 4, at + 5 + |m.vertices|, m.vertices, zero, conv, show);
  }

  /** The face list block of a mesh block. */
  lemma {:induction false} MeshFacesRead<T>(lines: seq<string>, at: nat, m: AseMesh.Mesh<T>, show: T -> string, end: nat)
    requires at + 6 + |m.vertices| + |m.faces| < |lines|
    requires Shows(lines[at + 5 + |m.vertices|], [AseMesh.MESH_FACE_LIST_HEADER, "{"])
    requires FaceRun(lines, at + 6 + |m.vertices|, m.faces)
    requires Closes(lines[at + 6 + |m.vertices| + |m.faces|])
    requires end == at + MeshSize(m) - 1
    ensures AseMesh.ReadFaceList(lines, at + 5 + |m.vertices|) == (m.faces, Pos(end, false))
  {
    FaceListRead(lines, at + 5 + |m.vertices|, at + 6 + |m.vertices|, end, m.faces);
  }

  /** The two list blocks give the vertices and faces, which agree with the
      declared counts; the reader stops at line `end`, the one closing the
      mesh block. */
  lemma {:induction false} MeshListsRead<T(!new)>(lines: seq<string>, at: nat, m: AseMesh.Mesh<T>, zero: T, conv: string -> Option<T>,
                               show: T -> string, end: nat)
    requires Printer(show, conv)
    requires AseMesh.Consistent(m) && m.precision == AseMesh.DEFAULT_PRECISION
    requires MeshAt(lines, at, m, show)
    requires end == at + MeshSize(m) - 1
    ensures AseMesh.ReadLists(lines, at + 3, m.numVertices, m.numFaces, zero, conv) == Ok((m, Pos(end, false)))
  {
    MeshVerticesRead(lines, at, m, zero, conv, show);
    MeshFacesRead(lines, at, m, show, end);
    ListsOf(lines, at, m, zero, conv, end);
  }

  /** A mesh block reads back as the mesh it was written from, and the
      reader stops at line `end`, the one closing the block. */
  lemma {:induction false} MeshRoundTrip<T(!new)>(lines: seq<string>, at: nat, m: AseMesh.Mesh<T>, zero: T, conv: string -> Option<T>,
                               show: T -> string, end: nat)
    requires Printer(show, conv)
    requires AseMesh.Consistent(m) && m.precision == AseMesh.DEFAULT_PRECISION
    requires MeshAt(lines, at, m, show)
    requires end == at + MeshSize(m) - 1
    ensures AseMesh.Read(lines, at, zero, conv) == Ok((m, Pos(end, false)))
  {
    MeshCountsRead(lines, at, m, show);
    MeshListsRead(lines, at, m, zero, conv, show, end);
  }

  /** Wherever the canonical text of a mesh stands among the lines, reading
      a mesh from its first line gives that mesh back, and the reader stops
      at the line closing the block. */
  lemma {:induction false} MeshBlockRead<T(!new)>(lines: seq<string>, at: nat, m: AseMesh.Mesh<T>, zero: T, conv: string -> Option<T>,
                               show: T -> string)
    requires Printer(show, conv)
    requires AseMesh.Consistent(m) && m.precision == AseMesh.DEFAULT_PRECISION
    requires BlockAt(lines, at, MeshLines(m, show))
    ensures AseMesh.Read(lines, at, zero, conv) == Ok((m, Pos(at + MeshSize(m) - 1, false)))
  {
    MeshLinesShow(lines, at, m, show);
    MeshRoundTrip(lines, at, m, zero, conv, show, at + MeshSize(m) - 1);
  }

  /** What the scene text asks of an object: a mesh the parser could have
      produced, and a name line that fits a `std::string`. */
  predicate Writable<T>(o: AseObject.Object<T>) {
    && AseMesh.Consistent(o.mesh)
    && o.mesh.precision == AseMesh.DEFAULT_PRECISION
    && AseObject.FitsSize(NameLine(o.name))
  }

  /** The first line from `from` holding `*GEOMOBJECT` is line `at`. */
  lemma {:induction false} HeaderFound(lines: seq<string>, from: nat, at: nat, next: nat)
    requires from <= at < |lines| && next == at + 1
    requires NoneContain(lines, from, at, AseObject.HEADER)
    requires Shows(lines[at], [AseObject.HEADER, "{"])
    ensures AseObject.MoveToHeader(lines, from) == Ok(next)
  {
    Parse(lines[at], [AseObject.HEADER, "{"]);
    FoundAt(lines, from, at, AseObject.HEADER);
  }

  /** A name line right where the name is looked for. */
  lemma {:induction false} NameFound(lines: seq<string>, k: nat, next: nat, name: string)
    requires k < |lines| && next == k + 1
    requires Names(lines[k], name)
    ensures AseObject.ReadName(lines, k) == Ok((name, next))
  {
    FoundHere(lines, k, AseObject.NODE_NAME_HEADER);
  }

  /** The header line of an object block, after lines without
      `*GEOMOBJECT`, then its name line: the name is read and the mesh is
      looked for from the line after the name. */
  lemma {:induction false} ObjectStartRead(lines: seq<string>, from: nat, at: nat, name: string)
    requires from <= at && at + 1 < |lines|
    requires NoneContain(lines, from, at, AseObject.HEADER)
    requires Shows(lines[at], [AseObject.HEADER, "{"])
    requires Names(lines[at + 1], name)
    ensures AseObject.MoveToHeader(lines, from) == Ok(at + 1)
    ensures AseObject.ReadName(lines, at + 1) == Ok((name, at + 2))
  {
    HeaderFound(lines, from, at, at + 1);
    NameFound(lines, at + 1, at + 2, name);
  }

  /** The mesh block inside an object block. */
  lemma {:induction false} ObjectMeshRead<T(!new)>(lines: seq<string>, at: nat, o: AseObject.Object<T>,
                                zero: T, conv: string -> Option<T>, show: T -> string, end: nat)
    requires Printer(show, conv)
    requires AseMesh.Consistent(o.mesh) && o.mesh.precision == AseMesh.DEFAULT_PRECISION
    requires MeshAt(lines, at + 2, o.mesh, show)
    requires end == at + ObjectSize(o) - 2
    ensures AseMesh.Read(lines, at + 2, zero, conv) == Ok((o.mesh, Pos(end, false)))
  {
    MeshRoundTrip(lines, at + 2, o.mesh, zero, conv, show, end);
  }

  /** An object block reads back as the object, after any lines without
      `*GEOMOBJECT`; the reader stops at line `end`, the one closing the
      mesh, which leaves it and the line closing the object unread. */
  lemma {:induction false} ObjectRoundTrip<T(!new)>(lines: seq<string>, from: nat, at: nat, o: AseObject.Object<T>,
                                 zero: T, conv: string -> Option<T>, show: T -> string, end: nat)
    requires Printer(show, conv)
    requires Writable(o)
    requires from <= at && NoneContain(lines, from, at, AseObject.HEADER)
    requires ObjectAt(lines, at, o, show)
    requires end == at + ObjectSize(o) - 2
    ensures AseObject.Read(lines, from, zero, conv) == Ok((o, Pos(end, false)))
  {
    ObjectStartRead(lines, from, at, o.name);
    ObjectMeshRead(lines, at, o, zero, conv, show, end);
  }

  /** The last line of an object block's mesh and the line closing the
      object. */
  lemma {:induction false} ObjectClosing<T>(lines: seq<string>, at: nat, o: AseObject.Object<T>, show: T -> string, end: nat)
    requires ObjectAt(lines, at, o, show)
    requires end == at + ObjectSize(o) - 2
    ensures end + 2 <= |lines|
    ensures Closes(lines[end]) && Closes(lines[end + 1])
  {
    assert end == at + 2 + 7 + |o.mesh.vertices| + |o.mesh.faces|;
    assert end + 1 == at + 2 + MeshSize(o.mesh);
  }

  /** Two closing lines hold no object header. */
  lemma {:induction false} ClosingLinesSkipped(lines: seq<string>, end: nat, next: nat)
    requires next == end + 2 && next <= |lines|
    requires Closes(lines[end]) && Closes(lines[end + 1])
    ensures NoneContain(lines, end, next, AseObject.HEADER)
  {
    ClosesNoMarker(lines[end], AseObject.HEADER);
    ClosesNoMarker(lines[end + 1], AseObject.HEADER);
  }

  /** The reader loop entered at line `p` with the objects `acc` ends as
      it does when entered at line `q` with the objects `acc'`. */
  ghost predicate LoopReaches<T>(lines: seq<string>, p: nat, acc: seq<AseObject.Object<T>>,
                                 q: nat, acc': seq<AseObject.Object<T>>, zero: T, conv: string -> Option<T>) {
    && p <= |lines| && q <= |lines|
    && AseReader.ReadObjects(lines, Pos(p, false), acc, zero, conv)
       == AseReader.ReadObjects(lines, Pos(q, false), acc', zero, conv)
  }

  /** An object read that succeeds is one round of the reader loop. */
  lemma {:induction false} ReadStep<T>(lines: seq<string>, p: nat, o: AseObject.Object<T>, acc: seq<AseObject.Object<T>>,
                    zero: T, conv: string -> Option<T>, end: nat)
    requires p <= |lines|
    requires AseObject.Read(lines, p, zero, conv) == Ok((o, Pos(end, false)))
    ensures end <= |lines|
    ensures AseReader.ReadObjects(lines, Pos(p, false), acc, zero, conv)
         == AseReader.ReadObjects(lines, Pos(end, false), acc + [o], zero, conv)
  {
  }

  /** An object block is read by one round of the reader loop. */
  lemma {:induction false} ObjectLoopRound<T(!new)>(lines: seq<string>, p: nat, at: nat, o: AseObject.Object<T>,
                                 acc: seq<AseObject.Object<T>>, zero: T, conv: string -> Option<T>,
                                 show: T -> string, end: nat)
    requires Printer(show, conv)
    requires Writable(o)
    requires p <= at && NoneContain(lines, p, at, AseObject.HEADER)
    requires ObjectAt(lines, at, o, show)
    requires end == at + ObjectSize(o) - 2
    ensures end <= |lines|
    ensures LoopReaches(lines, p, acc, end, acc + [o], zero, conv)
  {
    ObjectRoundTrip(lines, p, at, o, zero, conv, show, end);
    ReadStep(lines, p, o, acc, zero, conv, end);
  }

  /** One object block, read by one round of the reader loop. */
  lemma {:induction false} ObjectStep<T(!new)>(lines: seq<string>, p: nat, at: nat, o: AseObject.Object<T>,
                            acc: seq<AseObject.Object<T>>, zero: T, conv: string -> Option<T>,
                            show: T -> string, end: nat, next: nat)
    requires Printer(show, conv)
    requires Writable(o)
    requires p <= at && NoneContain(lines, p, at, AseObject.HEADER)
    requires BlockAt(lines, at, ObjectLines(o, show))
    requires end == at + ObjectSize(o) - 2 && next == end + 2
    ensures next <= |lines|
    ensures NoneContain(lines, end, next, AseObject.HEADER)
    ensures LoopReaches(lines, p, acc, end, acc + [o], zero, conv)
  {
    ObjectLinesShow(lines, at, o, show);
    ObjectClosing(lines, at, o, show, end);
    ClosingLinesSkipped(lines, end, next);
    ObjectLoopRound(lines, p, at, o, acc, zero, conv, show, end);
  }

  /** Reading a run of object blocks, which ends at line `end`, adds those
      objects, in order, and continues at the two lines closing the last
      one. */
  lemma {:induction false} ObjectsRead<T(!new)>(lines: seq<string>, p: nat, at: nat, end: nat,
                                                objs: seq<AseObject.Object<T>>, acc: seq<AseObject.Object<T>>,
                                                zero: T, conv: string -> Option<T>, show: T -> string)
    requires Printer(show, conv)
    requires objs != []
    requires forall i :: 0 <= i < |objs| ==> Writable(objs[i])
    requires p <= at && NoneContain(lines, p, at, AseObject.HEADER)
    requires BlockAt(lines, at, SceneLines(objs, show))
    requires end == at + SceneSize(objs)
    ensures 2 <= end <= |lines|
    ensures NoneContain(lines, end - 2, end, AseObject.HEADER)
    ensures LoopReaches(lines, p, acc, end - 2, acc + objs, zero, conv)
    decreases |objs|
  {
    var next := at + ObjectSize(objs[0]);
    var mid := next - 2;
    var more := acc + [objs[0]];
    FirstObjectRead(lines, p, at, end, objs, acc, zero, conv, show, mid, next, more);
    if |objs| > 1 {
      ObjectsRead(lines, mid, next, end, objs[1..], more, zero, conv, show);
      LoopChain(lines, p, acc, mid, more, end - 2, acc + objs, zero, conv);
    } else {
      assert end - 2 == mid && acc + objs == more;
    }
  }

  /** One round of the loop over the first of the written objects. */
  lemma {:induction false} FirstObjectRead<T(!new)>(lines: seq<string>, p: nat, at: nat, end: nat,
                                                    objs: seq<AseObject.Object<T>>, acc: seq<AseObject.Object<T>>,
                                                    zero: T, conv: string -> Option<T>, show: T -> string,
                                                    mid: nat, next: nat, more: seq<AseObject.Object<T>>)
    requires Printer(show, conv)
    requires objs != []
    requires forall i :: 0 <= i < |objs| ==> Writable(objs[i])
    requires p <= at && NoneContain(lines, p, at, AseObject.HEADER)
    requires BlockAt(lines, at, SceneLines(objs, show))
    requires end == at + SceneSize(objs)
    requires next == at + ObjectSize(objs[0]) && mid == next - 2 && more == acc + [objs[0]]
    ensures 2 <= next <= |lines| && mid <= next
    ensures NoneContain(lines, mid, next, AseObject.HEADER)
    ensures LoopReaches(lines, p, acc, mid, more, zero, conv)
    ensures forall i :: 0 <= i < |objs[1..]| ==> Writable(objs[1..][i])
    ensures BlockAt(lines, next, SceneLines(objs[1..], show))
    ensures end == next + SceneSize(objs[1..])
    ensures more + objs[1..] == acc + objs
    ensures |objs| == 1 ==> end == next && more == acc + objs
  {
    SceneHead(lines, at, end, objs, show, next);
    ObjectStep(lines, p, at, objs[0], acc, zero, conv, show, mid, next);
    HeadThenTail(acc, objs);
  }

  /** The first object's block, and the blocks of the others after it. */
  lemma {:induction false} SceneHead<T>(lines: seq<string>, at: nat, end: nat, objs: seq<AseObject.Object<T>>,
                                        show: T -> string, next: nat)
    requires objs != []
    requires forall i :: 0 <= i < |objs| ==> Writable(objs[i])
    requires BlockAt(lines, at, SceneLines(objs, show))
    requires end == at + SceneSize(objs) && next == at + ObjectSize(objs[0])
    ensures Writable(objs[0]) && forall i :: 0 <= i < |objs[1..]| ==> Writable(objs[1..][i])
    ensures BlockAt(lines, at, ObjectLines(objs[0], show))
    ensures BlockAt(lines, next, SceneLines(objs[1..], show))
    ensures end == next + SceneSize(objs[1..])
    ensures |objs| == 1 ==> end == next
  {
    ObjectLinesSize(objs[0], show);
    BlockSplit(lines, at, ObjectLines(objs[0], show), SceneLines(objs[1..], show), next);
    if |objs| == 1 {
      assert objs[1..] == [];
    }
  }

  lemma {:induction false} LoopChain<T>(lines: seq<string>, p: nat, a: seq<AseObject.Object<T>>, q: nat,
                                        b: seq<AseObject.Object<T>>, r: nat, c: seq<AseObject.Object<T>>,
                                        zero: T, conv: string -> Option<T>)
    requires LoopReaches(lines, p, a, q, b, zero, conv) && LoopReaches(lines, q, b, r, c, zero, conv)
    ensures LoopReaches(lines, p, a, r, c, zero, conv)
  {
  }

  lemma {:induction false} NothingThen<X>(xs: seq<X>)
    ensures [] + xs == xs
  {
  }

  lemma {:induction false} HeadThenTail<X>(acc: seq<X>, xs: seq<X>)
    requires xs != []
    ensures acc + [xs[0]] + xs[1..] == acc + xs
    ensures xs[1..] == [] ==> acc + [xs[0]] == acc + xs
  {
    assert xs == [xs[0]] + xs[1..];
  }

  /** Nothing after the last object block: the next object read fails at
      the header, and the objects read so far are the result. */
  lemma {:induction false} TrailerEndsRead<T>(lines: seq<string>, p: nat, q: nat, acc: seq<AseObject.Object<T>>,
                           zero: T, conv: string -> Option<T>)
    requires p <= q <= |lines|
    requires NoneContain(lines, p, q, AseObject.HEADER) && NoneContain(lines, q, |lines|, AseObject.HEADER)
    requires acc != []
    ensures AseReader.ReadObjects(lines, Pos(p, false), acc, zero, conv) == Ok(acc)
  {
    assert NoneContain(lines, p, |lines|, AseObject.HEADER);
  }

  /** Wherever the canonical text of the objects stands, with no line
      holding `*GEOMOBJECT` before or after it, the reader returns exactly
      the objects written. */
  lemma {:induction false} SceneRoundTrip<T(!new)>(lines: seq<string>, at: nat, objs: seq<AseObject.Object<T>>,
                                zero: T, conv: string -> Option<T>, show: T -> string)
    requires Printer(show, conv)
    requires objs != []
    requires forall i :: 0 <= i < |objs| ==> Writable(objs[i])
    requires BlockAt(lines, at, SceneLines(objs, show))
    requires NoneContain(lines, 0, at, AseObject.HEADER)
    requires NoneContain(lines, at + SceneSize(objs), |lines|, AseObject.HEADER)
    ensures AseReader.ReadAll(lines, zero, conv) == Ok(objs)
  {
    var end := at + SceneSize(objs);
    ObjectsRead(lines, 0, at, end, objs, [], zero, conv, show);
    TrailerEndsRead(lines, end - 2, end, objs, zero, conv);
    NothingThen(objs);
  }

  /** An object block cut off before its mesh, after good objects: the
      whole read fails with the mesh failure instead of returning the good
      objects. */
  lemma {:induction false} TruncatedLastObject<T(!new)>(lines: seq<string>, objs: seq<AseObject.Object<T>>, name: string,
                                     zero: T, conv: string -> Option<T>, show: T -> string)
    requires Printer(show, conv)
    requires objs != []
    requires forall i :: 0 <= i < |objs| ==> Writable(objs[i])
    requires AseObject.FitsSize(NameLine(name))
    requires BlockAt(lines, 0, SceneLines(objs, show))
    requires BlockAt(lines, SceneSize(objs), ObjectHead(name))
    requires |lines| == SceneSize(objs) + 2
    ensures AseReader.ReadAll(lines, zero, conv) == Err(MeshErr(NoMeshHeader))
  {
    var end := SceneSize(objs);
    SceneLinesSize(objs, show);
    ObjectsRead(lines, 0, 0, end, objs, [], zero, conv, show);
    NothingThen(objs);
    CutObjectEndsRead(lines, end, objs, name, zero, conv);
  }

  /** The header and name lines of an object, and nothing after them: the
      object read finds both and then no mesh. */
  lemma {:induction false} CutObjectFails<T>(lines: seq<string>, end: nat, name: string, zero: T, conv: string -> Option<T>)
    requires AseObject.FitsSize(NameLine(name))
    requires 2 <= end && end + 2 == |lines| && BlockAt(lines, end, ObjectHead(name))
    requires NoneContain(lines, end - 2, end, AseObject.HEADER)
    ensures AseObject.Read(lines, end - 2, zero, conv) == Err(MeshErr(NoMeshHeader))
  {
    ObjectHeadShows(lines, end, name);
    HeaderFound(lines, end - 2, end, end + 1);
    NameFound(lines, end + 1, end + 2, name);
  }
  /** Once the loop reaches the cut-off object, the mesh failure ends the read. */
  lemma {:induction false} CutObjectEndsRead<T>(lines: seq<string>, end: nat, acc: seq<AseObject.Object<T>>, name: string,
                                                zero: T, conv: string -> Option<T>)
    requires AseObject.FitsSize(NameLine(name))
    requires 2 <= end && end + 2 == |lines| && BlockAt(lines, end, ObjectHead(name))
    requires NoneContain(lines, end - 2, end, AseObject.HEADER)
    ensures AseReader.ReadObjects(lines, Pos(end - 2, false), acc, zero, conv) == Err(MeshErr(NoMeshHeader))
  {
    CutObjectFails(lines, end, name, zero, conv);
    AseReader.MeshFailureIsFatal(lines, Pos(end - 2, false), acc, zero, conv, NoMeshHeader);
  }

}
