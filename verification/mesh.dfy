/** The mesh section parser and serialiser of ase_mesh.hpp (`ASEMesh`).

    `read` makes one forward pass: it skips to the first line containing
    `*MESH`, then to the vertex-count line and the face-count line, then to
    the vertex list and the face list, collecting one record per line of
    each list; finally it checks the declared counts against the lists.
    `write` produces three outputs: the two counts, one `v1 v2 v3` triple per
    face and one coordinate triple per vertex.  Text formatting of the
    coordinates is not modelled, so the outputs are values.
 */
module AseMesh {
  import opened Results
  import opened Text
  import opened LineScan
  import opened Faces
  import opened Vertices

  const MESH_HEADER := "*MESH"
  const MESH_NUMVERTEX_HEADER := "*MESH_NUMVERTEX"
  const MESH_NUMFACES_HEADER := "*MESH_NUMFACES"
  const MESH_VERTEX_HEADER := "*MESH_VERTEX"
  const MESH_FACE_HEADER := "*MESH_FACE"
  const MESH_VERTEX_LIST_HEADER := "*MESH_VERTEX_LIST"
  const MESH_FACE_LIST_HEADER := "*MESH_FACE_LIST"

  /** `_precision{4}`. */
  const DEFAULT_PRECISION: int := 4

  datatype Mesh<T> = Mesh(
    precision: int,
    numVertices: nat,
    numFaces: nat,
    vertices: seq<Vertex<T>>,
    faces: seq<Face>)

  /** What a successful `read` guarantees: the declared counts are the
      lengths of the lists. */
  predicate Consistent<T>(m: Mesh<T>) {
    |m.vertices| == m.numVertices && |m.faces| == m.numFaces
  }

  function SetPrecision<T>(m: Mesh<T>, precision: int): (r: Mesh<T>)
    ensures r.precision == precision
    ensures r.numVertices == m.numVertices && r.numFaces == m.numFaces
    ensures r.vertices == m.vertices && r.faces == m.faces
  {
    m.(precision := precision)
  }

  // ---------------------------------------------------------------------
  // Reading
  // ---------------------------------------------------------------------

  /** `moveToMeshHeader`: the position after the first line, at or after
      `from`, that contains `*MESH` anywhere (so a `*MESH_NUMVERTEX` line
      also qualifies).  Running out of lines is the `eof()` failure. */
  function MoveToMeshHeader(lines: seq<string>, from: nat): (r: Result<nat>)
    ensures r.Ok? <==> !NoneContain(lines, from, |lines|, MESH_HEADER)
    ensures r.Ok? ==> from < r.value <= |lines| && Contains(lines[r.value - 1], MESH_HEADER)
    ensures r.Ok? ==> NoneContain(lines, from, r.value - 1, MESH_HEADER)
    ensures r.Err? ==> r.error == MeshErr(NoMeshHeader)
  {
    match FindLine(lines, from, MESH_HEADER)
    case Some(k) => Ok(k + 1)
    case None => Err(MeshErr(NoMeshHeader))
  }

  /** The value `ss >> name >> value` stores after the tag; 0 when the
      token is not a number. */
  function CountValue(line: string): nat {
    match ReadNat(Args(line))
    case Got(v, _) => v
    case _ => 0
  }

  /** The search loop of `readMeshNumVertices` and `readMeshNumFaces` as
      written: a line is examined only when it contains the tag, and is
      taken only when its first token is exactly the tag.  It amounts to
      the first line whose first token is the tag. */
  function FindCountLine(lines: seq<string>, from: nat, tag: string): (r: Option<nat>)
    requires tag != ""
    ensures r.Some? ==> from <= r.value < |lines| && FirstToken(lines[r.value]) == tag
    ensures r.Some? ==> forall k {:trigger FirstToken(lines[k])} :: from <= k < r.value ==> FirstToken(lines[k]) != tag
    ensures r.None? <==> forall k {:trigger FirstToken(lines[k])} :: from <= k < |lines| ==> FirstToken(lines[k]) != tag
    decreases |lines| - from
  {
    if from >= |lines| then None
    else if !Contains(lines[from], tag) then
      assert FirstToken(lines[from]) != tag by {
        if FirstToken(lines[from]) == tag { FirstTokenContained(lines[from]); }
      }
      FindCountLine(lines, from + 1, tag)
    else if FirstToken(lines[from]) == tag then Some(from)
    else FindCountLine(lines, from + 1, tag)
  }

  /** `readMeshNumVertices` / `readMeshNumFaces`: the declared count and the
      position after its line, or the mesh failure `missing` when no line
      starts with `tag`. */
  function ReadCount(lines: seq<string>, from: nat, tag: string, missing: MeshFailure): (r: Result<(nat, nat)>)
    requires tag != ""
    ensures r.Err? <==> forall k {:trigger FirstToken(lines[k])} :: from <= k < |lines| ==> FirstToken(lines[k]) != tag
    ensures r.Err? ==> r.error == MeshErr(missing)
    ensures r.Ok? ==> from < r.value.1 <= |lines|
    ensures r.Ok? ==> FirstToken(lines[r.value.1 - 1]) == tag && r.value.0 == CountValue(lines[r.value.1 - 1])
    ensures r.Ok? ==> forall k {:trigger FirstToken(lines[k])} :: from <= k < r.value.1 - 1 ==> FirstToken(lines[k]) != tag
  {
    match FindCountLine(lines, from, tag)
    case Some(k) => Ok((CountValue(lines[k]), k + 1))
    case None => Err(MeshErr(missing))
  }

  /** Where a list's records begin: after the first line, at or after
      `from`, that contains the list marker; or at the end of the input when
      there is none, in which case the marker's absence is not reported
      (the C++ code builds the message but never throws it). */
  ghost predicate ListStart(lines: seq<string>, from: nat, marker: string, start: nat) {
    || (from < start <= |lines| && Contains(lines[start - 1], marker) && NoneContain(lines, from, start - 1, marker))
    || (start == |lines| && NoneContain(lines, from, |lines|, marker))
  }

  function ListStartOf(lines: seq<string>, from: nat, marker: string): (start: nat)
    requires from <= |lines|
    ensures from <= start <= |lines|
    ensures ListStart(lines, from, marker, start)
  {
    AfterFind(lines, FindLine(lines, from, marker)).line
  }

  /** `readMeshVerticesList` / `readMeshFaceList`: skip to the list marker,
      then collect the maximal run of lines tagged `tag`.  The line that ends
      the run is consumed.  `ReadListRun` says which lines the records come
      from. */
  function ReadList<R>(lines: seq<string>, from: nat, marker: string, tag: string, parse: seq<string> -> R)
    : (r: (seq<R>, Pos))
    requires from <= |lines|
    ensures from <= r.1.line && Valid(lines, r.1)
  {
    CollectRun(lines, ListStartOf(lines, from, marker), tag, parse)
  }

  /** The records are one per line of the maximal run of `tag` lines just
      after the marker line, in order, and reading stops after the line
      that ends the run. */
  lemma {:induction false} ReadListRun<R>(lines: seq<string>, from: nat, start: nat, marker: string, tag: string,
                       parse: seq<string> -> R)
    requires from <= |lines| && start == ListStartOf(lines, from, marker)
    ensures var r := ReadList(lines, from, marker, tag, parse);
      && IsMaximalRun(lines, start, |r.0|, tag)
      && (forall i :: 0 <= i < |r.0| ==> r.0[i] == parse(Args(lines[start + i])))
      && r.1 == After(lines, start + |r.0|)
  {
    CollectRunMaximal(lines, start, tag, parse);
  }

  /** Without a marker line the list is empty and the stream is at its
      end: the missing marker is not reported. */
  lemma {:induction false} ReadListNoMarker<R>(lines: seq<string>, from: nat, marker: string, tag: string, parse: seq<string> -> R)
    requires from <= |lines|
    requires NoneContain(lines, from, |lines|, marker)
    ensures ReadList(lines, from, marker, tag, parse) == ([], Pos(|lines|, true))
  {
    assert ListStartOf(lines, from, marker) == |lines|;
  }

  function VertexParser<T>(zero: T, conv: string -> Option<T>): seq<string> -> Vertex<T> {
    ts => ParseVertex(ts, zero, conv)
  }

  function ReadVertexList<T>(lines: seq<string>, from: nat, zero: T, conv: string -> Option<T>)
    : (r: (seq<Vertex<T>>, Pos))
    requires from <= |lines|
    ensures from <= r.1.line && Valid(lines, r.1)
  {
    ReadList(lines, from, MESH_VERTEX_LIST_HEADER, MESH_VERTEX_HEADER, VertexParser(zero, conv))
  }

  function ReadFaceList(lines: seq<string>, from: nat): (r: (seq<Face>, Pos))
    requires from <= |lines|
    ensures from <= r.1.line && Valid(lines, r.1)
  {
    ReadList(lines, from, MESH_FACE_LIST_HEADER, MESH_FACE_HEADER, ParseFace)
  }

  /** The vertices are those of the `*MESH_VERTEX` lines from `start`, the
      line after the `*MESH_VERTEX_LIST` line. */
  lemma {:induction false} VertexListRun<T>(lines: seq<string>, from: nat, start: nat, zero: T, conv: string -> Option<T>)
    requires from <= |lines| && start == ListStartOf(lines, from, MESH_VERTEX_LIST_HEADER)
    ensures var r := ReadVertexList(lines, from, zero, conv);
      && IsMaximalRun(lines, start, |r.0|, MESH_VERTEX_HEADER)
      && (forall i :: 0 <= i < |r.0| ==> r.0[i] == ParseVertex(Args(lines[start + i]), zero, conv))
      && r.1 == After(lines, start + |r.0|)
  {
    var r := ReadVertexList(lines, from, zero, conv);
    var parse := VertexParser(zero, conv);
    ReadListRun(lines, from, start, MESH_VERTEX_LIST_HEADER, MESH_VERTEX_HEADER, parse);
    forall i | 0 <= i < |r.0| ensures r.0[i] == ParseVertex(Args(lines[start + i]), zero, conv) {
      assert r.0[i] == parse(Args(lines[start + i]));
    }
  }

  /** The faces are those of the `*MESH_FACE` lines from `start`, the line
      after the `*MESH_FACE_LIST` line. */
  lemma {:induction false} FaceListRun(lines: seq<string>, from: nat, start: nat)
    requires from <= |lines| && start == ListStartOf(lines, from, MESH_FACE_LIST_HEADER)
    ensures var r := ReadFaceList(lines, from);
      && IsMaximalRun(lines, start, |r.0|, MESH_FACE_HEADER)
      && (forall i :: 0 <= i < |r.0| ==> r.0[i] == ParseFace(Args(lines[start + i])))
      && r.1 == After(lines, start + |r.0|)
  {
    ReadListRun(lines, from, start, MESH_FACE_LIST_HEADER, MESH_FACE_HEADER, ParseFace);
  }

  /** The first three stages of `read(std::istream&)`: the `*MESH` line,
      then the vertex count, then the face count, each search starting
      where the previous one stopped.  The result is the two declared
      counts and the line index after the face-count line. */
  function ReadCounts(lines: seq<string>, from: nat): (r: Result<(nat, nat, nat)>)
    requires from <= |lines|
    ensures r.Err? ==> r.error.MeshErr? && !r.error.mesh.VertexCountMismatch? && !r.error.mesh.FaceCountMismatch?
    ensures r == Err(MeshErr(NoMeshHeader)) <==> NoneContain(lines, from, |lines|, MESH_HEADER)
    ensures r.Ok? ==> from < r.value.2 <= |lines|
  {
    match MoveToMeshHeader(lines, from)
    case Err(e) => Err(e)
    case Ok(afterHeader) => ReadCountLines(lines, afterHeader)
  }

  /** The two count lines, searched for from `from` on. */
  function ReadCountLines(lines: seq<string>, from: nat): (r: Result<(nat, nat, nat)>)
    requires from <= |lines|
    ensures r.Err? ==> r.error == MeshErr(NoVertexCount) || r.error == MeshErr(NoFaceCount)
    ensures r.Ok? ==> from < r.value.2 <= |lines|
  {
    var numVertices :- ReadCount(lines, from, MESH_NUMVERTEX_HEADER, NoVertexCount);
    var numFaces :- ReadCount(lines, numVertices.1, MESH_NUMFACES_HEADER, NoFaceCount);
    Ok((numVertices.0, numFaces.0, numFaces.1))
  }

  /** The last stages of `read(std::istream&)`: the vertex list, then the
      face list from where the vertex list stopped, then the two checks of
      the declared counts against the lists. */
  function ReadLists<T>(lines: seq<string>, from: nat, numVertices: nat, numFaces: nat,
                        zero: T, conv: string -> Option<T>): (r: Result<(Mesh<T>, Pos)>)
    requires from <= |lines|
    ensures r.Err? ==> r.error.MeshErr? && (r.error.mesh.VertexCountMismatch? || r.error.mesh.FaceCountMismatch?)
    ensures r.Err? && r.error.mesh.VertexCountMismatch? ==> r.error.mesh.declared == numVertices != r.error.mesh.actual
    ensures r.Err? && r.error.mesh.FaceCountMismatch? ==> r.error.mesh.declared == numFaces != r.error.mesh.actual
    ensures r.Ok? ==> Consistent(r.value.0) && r.value.0.precision == DEFAULT_PRECISION
    ensures r.Ok? ==> r.value.0.numVertices == numVertices && r.value.0.numFaces == numFaces
    ensures r.Ok? ==> from <= r.value.1.line && Valid(lines, r.value.1)
    ensures r.Ok? ==>
      var vertexList := ReadVertexList(lines, from, zero, conv);
      var faceList := ReadFaceList(lines, vertexList.1.line);
      r.value.0.vertices == vertexList.0 && r.value.0.faces == faceList.0 && r.value.1 == faceList.1
  {
    var vertexList := ReadVertexList(lines, from, zero, conv);
    var faceList := ReadFaceList(lines, vertexList.1.line);
    if |vertexList.0| != numVertices then
      Err(MeshErr(VertexCountMismatch(numVertices, |vertexList.0|)))
    else if |faceList.0| != numFaces then
      Err(MeshErr(FaceCountMismatch(numFaces, |faceList.0|)))
    else
      Ok((Mesh(DEFAULT_PRECISION, numVertices, numFaces, vertexList.0, faceList.0), faceList.1))
  }

  /** `read(std::istream&)`: the stages in order, each starting where the
      previous one stopped, then the two count checks.  A parsed mesh gets
      the default precision. */
  function Read<T>(lines: seq<string>, from: nat, zero: T, conv: string -> Option<T>)
    : (r: Result<(Mesh<T>, Pos)>)
    requires from <= |lines|
    ensures r.Err? ==> r.error.MeshErr?
    ensures r == Err(MeshErr(NoMeshHeader)) <==> NoneContain(lines, from, |lines|, MESH_HEADER)
    ensures r.Err? && r.error.mesh.VertexCountMismatch? ==> r.error.mesh.declared != r.error.mesh.actual
    ensures r.Err? && r.error.mesh.FaceCountMismatch? ==> r.error.mesh.declared != r.error.mesh.actual
    ensures r.Ok? ==> Consistent(r.value.0) && r.value.0.precision == DEFAULT_PRECISION
    ensures r.Ok? ==> from < r.value.1.line && Valid(lines, r.value.1)
    ensures r.Ok? ==> ReadCounts(lines, from).Ok?
    ensures r.Ok? ==>
      var counts := ReadCounts(lines, from).value;
      var vertexList := ReadVertexList(lines, counts.2, zero, conv);
      var faceList := ReadFaceList(lines, vertexList.1.line);
      && r.value.0.numVertices == counts.0 && r.value.0.numFaces == counts.1
      && r.value.0.vertices == vertexList.0 && r.value.0.faces == faceList.0 && r.value.1 == faceList.1
  {
    var counts :- ReadCounts(lines, from);
    ReadLists(lines, counts.2, counts.0, counts.1, zero, conv)
  }

  /** A vertex list whose run of `*MESH_VERTEX` lines is not as long as the
      declared count fails the read, with the declared and the actual
      length. */
  lemma {:induction false} VertexCountMismatchThrows<T>(lines: seq<string>, from: nat, zero: T, conv: string -> Option<T>,
                                                        nv: nat, nf: nat, k: nat, start: nat, n: nat)
    requires from <= |lines|
    requires ReadCounts(lines, from) == Ok((nv, nf, k))
    requires start == ListStartOf(lines, k, MESH_VERTEX_LIST_HEADER)
    requires IsMaximalRun(lines, start, n, MESH_VERTEX_HEADER)
    requires n != nv
    ensures Read(lines, from, zero, conv) == Err(MeshErr(VertexCountMismatch(nv, n)))
  {
    VertexListRun(lines, k, start, zero, conv);
    var vertexList := ReadVertexList(lines, k, zero, conv);
    MaximalRunUnique(lines, start, |vertexList.0|, n, MESH_VERTEX_HEADER);
  }

  /** With the vertex count right, a face list whose run of `*MESH_FACE`
      lines is not as long as the declared count fails the read in the same
      way.  The face list is searched for after the line that ended the
      vertex run. */
  lemma {:induction false} FaceCountMismatchThrows<T>(lines: seq<string>, from: nat, zero: T, conv: string -> Option<T>,
                                                      nv: nat, nf: nat, k: nat, vstart: nat, fstart: nat, n: nat)
    requires from <= |lines|
    requires ReadCounts(lines, from) == Ok((nv, nf, k))
    requires vstart == ListStartOf(lines, k, MESH_VERTEX_LIST_HEADER)
    requires IsMaximalRun(lines, vstart, nv, MESH_VERTEX_HEADER)
    requires fstart == ListStartOf(lines, After(lines, vstart + nv).line, MESH_FACE_LIST_HEADER)
    requires IsMaximalRun(lines, fstart, n, MESH_FACE_HEADER)
    requires n != nf
    ensures Read(lines, from, zero, conv) == Err(MeshErr(FaceCountMismatch(nf, n)))
  {
    FaceListTooShort(lines, k, zero, conv, nv, nf, vstart, fstart, n);
    ReadOfLists(lines, from, zero, conv, nv, nf, k, Err(MeshErr(FaceCountMismatch(nf, n))));
  }

  lemma {:induction false} FaceListTooShort<T>(lines: seq<string>, k: nat, zero: T, conv: string -> Option<T>,
                                               nv: nat, nf: nat, vstart: nat, fstart: nat, n: nat)
    requires k <= |lines|
    requires vstart == ListStartOf(lines, k, MESH_VERTEX_LIST_HEADER)
    requires IsMaximalRun(lines, vstart, nv, MESH_VERTEX_HEADER)
    requires fstart == ListStartOf(lines, After(lines, vstart + nv).line, MESH_FACE_LIST_HEADER)
    requires IsMaximalRun(lines, fstart, n, MESH_FACE_HEADER)
    requires n != nf
    ensures ReadLists(lines, k, nv, nf, zero, conv) == Err(MeshErr(FaceCountMismatch(nf, n)))
  {
    RunLength(lines, k, vstart, MESH_VERTEX_LIST_HEADER, MESH_VERTEX_HEADER, VertexParser(zero, conv), nv);
    var afterVertices := After(lines, vstart + nv).line;
    RunLength(lines, afterVertices, fstart, MESH_FACE_LIST_HEADER, MESH_FACE_HEADER, ParseFace, n);
  }

  /** The number of records a list read returns is the length of the
      maximal run after its marker. */
  lemma {:induction false} RunLength<R>(lines: seq<string>, from: nat, start: nat, marker: string, tag: string,
                                        parse: seq<string> -> R, n: nat)
    requires from <= |lines| && start == ListStartOf(lines, from, marker)
    requires IsMaximalRun(lines, start, n, tag)
    ensures |ReadList(lines, from, marker, tag, parse).0| == n
    ensures ReadList(lines, from, marker, tag, parse).1 == After(lines, start + n)
  {
    ReadListRun(lines, from, start, marker, tag, parse);
    MaximalRunUnique(lines, start, |ReadList(lines, from, marker, tag, parse).0|, n, tag);
  }

  /** Once the counts are read, the mesh read is the list stage. */
  lemma {:induction false} ReadOfLists<T>(lines: seq<string>, from: nat, zero: T, conv: string -> Option<T>,
                                          nv: nat, nf: nat, k: nat, r: Result<(Mesh<T>, Pos)>)
    requires from <= |lines|
    requires ReadCounts(lines, from) == Ok((nv, nf, k))
    requires ReadLists(lines, k, nv, nf, zero, conv) == r
    ensures Read(lines, from, zero, conv) == r
  {
  }

  // ---------------------------------------------------------------------
  // Writing
  // ---------------------------------------------------------------------

  /** One line `v1 v2 v3` of the elements output. */
  datatype Triple = Triple(v1: nat, v2: nat, v3: nat)

  /** The three outputs of `write`: counts, elements, vertices. */
  datatype MeshOutput<T> = MeshOutput(
    numVertices: nat,
    numFaces: nat,
    elements: seq<Triple>,
    vertices: seq<Vertex<T>>)

  function Corners(f: Face): Triple {
    Triple(f.v1, f.v2, f.v3)
  }

  /** `saveElements`: the corners of every face, in order; the face index is
      not written. */
  function SaveElements(faces: seq<Face>): (es: seq<Triple>)
    ensures |es| == |faces|
    ensures forall i {:trigger es[i]} :: 0 <= i < |faces| ==> es[i] == Corners(faces[i])
  {
    if faces == [] then []
    else [Corners(faces[0])] + SaveElements(faces[1..])
  }

  /** `write`: the declared counts (`saveInfo`), the face corners
      (`saveElements`) and the vertices (`saveVertices`). For a mesh that
      `read` produced, the counts agree with the other two outputs. */
  function Write<T>(m: Mesh<T>): (out: MeshOutput<T>)
    ensures out.numVertices == m.numVertices && out.numFaces == m.numFaces
    ensures out.vertices == m.vertices
    ensures |out.elements| == |m.faces|
    ensures forall i {:trigger out.elements[i]} :: 0 <= i < |m.faces| ==> out.elements[i] == Corners(m.faces[i])
    ensures Consistent(m) ==> out.numVertices == |out.vertices| && out.numFaces == |out.elements|
  {
    MeshOutput(m.numVertices, m.numFaces, SaveElements(m.faces), m.vertices)
  }

  /** Two meshes that agree on everything `write` is meant to keep: the
      counts, the vertices and the corners of each face. */
  ghost predicate SameContent<T>(a: Mesh<T>, b: Mesh<T>) {
    && a.numVertices == b.numVertices && a.numFaces == b.numFaces
    && a.vertices == b.vertices
    && |a.faces| == |b.faces|
    && forall i :: 0 <= i < |a.faces| ==> Corners(a.faces[i]) == Corners(b.faces[i])
  }

  /** `write` forgets exactly the precision and the face indices: two meshes
      give the same output if and only if they have the same content. */
  lemma {:induction false} WriteKeepsContent<T>(a: Mesh<T>, b: Mesh<T>)
    ensures Write(a) == Write(b) <==> SameContent(a, b)
  {
    if SameContent(a, b) {
      var ea, eb := Write(a).elements, Write(b).elements;
      assert |ea| == |eb|;
      forall i | 0 <= i < |ea| ensures ea[i] == eb[i] {
        assert ea[i] == Corners(a.faces[i]) && eb[i] == Corners(b.faces[i]);
      }
      assert ea == eb;
    }
    if Write(a) == Write(b) {
      forall i | 0 <= i < |a.faces| ensures Corners(a.faces[i]) == Corners(b.faces[i]) {
        assert Write(a).elements[i] == Write(b).elements[i];
      }
    }
  }
}
