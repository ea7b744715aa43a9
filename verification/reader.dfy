/** The scene reader of ase_reader.hpp (`ASEReader`): a list of objects
    read from one stream, a precision setting, and an export that merges
    every object's mesh into one set of outputs.

    Reading repeats the object parser while the stream has not hit its end.
    An object-level failure ends the loop: it is swallowed when at least one
    object was read, and reported as a reader failure otherwise.  A
    mesh-level failure is not caught and ends the whole read.
 */
module AseReader {
  import opened Results
  import opened LineScan
  import AseMesh
  import AseObject
  import Vertices
  import Faces

  datatype Scene<T> = Scene(precision: int, objects: seq<AseObject.Object<T>>)

  /** A default-constructed reader: precision 4, no objects. */
  function EmptyScene<T>(): (s: Scene<T>)
    ensures s.precision == AseMesh.DEFAULT_PRECISION && s.objects == []
  {
    Scene(AseMesh.DEFAULT_PRECISION, [])
  }

  /** What the object parser guarantees of each object it returns. */
  predicate AllParsed<T>(objs: seq<AseObject.Object<T>>) {
    forall i :: 0 <= i < |objs| ==>
      AseMesh.Consistent(objs[i].mesh) && objs[i].mesh.precision == AseMesh.DEFAULT_PRECISION
  }

  // ---------------------------------------------------------------------
  // Reading
  // ---------------------------------------------------------------------

  /** The `while (!is.eof())` loop of `readOject`, entered at `p` with the
      objects `acc` already read. */
  function ReadObjects<T>(lines: seq<string>, p: Pos, acc: seq<AseObject.Object<T>>,
                          zero: T, conv: string -> Option<T>)
    : (r: Result<seq<AseObject.Object<T>>>)
    requires Valid(lines, p)
    ensures r.Err? ==> r.error.MeshErr? || r.error.ReaderErr?
    ensures r.Err? && r.error.ReaderErr? ==> acc == []
    decreases |lines| - p.line, 1
  {
    if p.eof then
      if acc == [] then Err(ReaderErr(NoObjectsFound)) else Ok(acc)
    else
      ReadRound(lines, p.line, acc, zero, conv)
  }

  /** One pass of the loop body: an object read from line `from`, kept on
      success, and the `catch` of the object failure. */
  function ReadRound<T>(lines: seq<string>, from: nat, acc: seq<AseObject.Object<T>>,
                        zero: T, conv: string -> Option<T>)
    : (r: Result<seq<AseObject.Object<T>>>)
    requires from <= |lines|
    ensures r.Err? ==> r.error.MeshErr? || r.error.ReaderErr?
    ensures r.Err? && r.error.ReaderErr? ==> acc == []
    decreases |lines| - from, 0
  {
    match AseObject.Read(lines, from, zero, conv)
    case Ok(read) =>
      ReadObjects(lines, read.1, acc + [read.0], zero, conv)
    case Err(e) =>
      if e.ObjectErr? then
        if acc == [] then Err(ReaderErr(FirstObjectFailed(e.obj))) else Ok(acc)
      else
        Err(e)
  }

  /** What the loop returns extends what it was given, is never empty, and
      holds only objects as the object parser returns them. */
  ghost predicate Extends<T>(r: Result<seq<AseObject.Object<T>>>, acc: seq<AseObject.Object<T>>) {
    r.Ok? ==> |r.value| > 0 && acc <= r.value && (AllParsed(acc) ==> AllParsed(r.value))
  }

  lemma {:induction false} LoopExtends<T>(lines: seq<string>, p: Pos, acc: seq<AseObject.Object<T>>,
                                          zero: T, conv: string -> Option<T>)
    requires Valid(lines, p)
    ensures Extends(ReadObjects(lines, p, acc, zero, conv), acc)
    decreases |lines| - p.line, 1
  {
    if !p.eof {
      RoundExtends(lines, p.line, acc, zero, conv);
    }
  }

  lemma {:induction false} RoundExtends<T>(lines: seq<string>, from: nat, acc: seq<AseObject.Object<T>>,
                                           zero: T, conv: string -> Option<T>)
    requires from <= |lines|
    ensures Extends(ReadRound(lines, from, acc, zero, conv), acc)
    decreases |lines| - from, 0
  {
    match AseObject.Read(lines, from, zero, conv)
    case Ok(read) =>
      var more := acc + [read.0];
      LoopExtends(lines, read.1, more, zero, conv);
      var r := ReadObjects(lines, read.1, more, zero, conv);
      if r.Ok? {
        assert acc <= more;
        if AllParsed(acc) {
          assert AllParsed(more) by {
            forall i | 0 <= i < |more|
              ensures AseMesh.Consistent(more[i].mesh) && more[i].mesh.precision == AseMesh.DEFAULT_PRECISION
            {
              if i < |acc| { assert more[i] == acc[i]; }
            }
          }
        }
      }
    case Err(e) =>
  }

  /** An object failure after at least one object ends the loop quietly:
      the objects read so far are the result. */
  lemma {:induction false} ObjectFailureEndsLoop<T>(lines: seq<string>, p: Pos, acc: seq<AseObject.Object<T>>,
                                 zero: T, conv: string -> Option<T>, e: ObjectFailure)
    requires Valid(lines, p) && !p.eof && acc != []
    requires AseObject.Read(lines, p.line, zero, conv) == Err(ObjectErr(e))
    ensures ReadObjects(lines, p, acc, zero, conv) == Ok(acc)
  {
  }

  /** `readOject` on a fresh stream. */
  function ReadAll<T>(lines: seq<string>, zero: T, conv: string -> Option<T>)
    : (r: Result<seq<AseObject.Object<T>>>)
    ensures r.Ok? ==> |r.value| > 0 && AllParsed(r.value)
    ensures r.Err? ==> r.error.MeshErr? || r.error.ReaderErr?
  {
    LoopExtends(lines, Pos(0, false), [], zero, conv);
    ReadObjects(lines, Pos(0, false), [], zero, conv)
  }

  /** `read(std::ifstream&)`: the objects are replaced and the reader's own
      precision is kept; on failure the reader is left as it was (the
      exception leaves `_objects` unassigned). */
  function Read<T>(s: Scene<T>, lines: seq<string>, zero: T, conv: string -> Option<T>)
    : (r: Result<Scene<T>>)
    ensures r.Ok? ==> r.value.precision == s.precision
    ensures r.Ok? ==> |r.value.objects| > 0 && AllParsed(r.value.objects)
    ensures r.Err? ==> r.error.MeshErr? || r.error.ReaderErr?
  {
    var objects :- ReadAll(lines, zero, conv);
    Ok(s.(objects := objects))
  }

  /** The reader's precision is not passed on when reading: every object
      read carries the mesh default, whatever the reader's setting. */
  lemma {:induction false} ReadIgnoresReaderPrecision<T>(s: Scene<T>, lines: seq<string>, zero: T, conv: string -> Option<T>, i: nat)
    requires Read(s, lines, zero, conv).Ok?
    requires i < |Read(s, lines, zero, conv).value.objects|
    ensures Read(s, lines, zero, conv).value.objects[i].mesh.precision == AseMesh.DEFAULT_PRECISION
  {
  }

  /** The check after the loop never fires: the stream has not failed
      before the first object is attempted, so an empty result always comes
      from the `catch`. */
  lemma {:induction false} NoObjectsFoundUnreachable<T>(lines: seq<string>, zero: T, conv: string -> Option<T>)
    ensures ReadAll(lines, zero, conv) != Err(ReaderErr(NoObjectsFound))
  {
    assert ReadAll(lines, zero, conv) == ReadRound(lines, 0, [], zero, conv);
    match AseObject.Read(lines, 0, zero, conv)
    case Ok(read) =>
      var tail := ReadObjects(lines, read.1, [] + [read.0], zero, conv);
      assert ReadRound(lines, 0, [], zero, conv) == tail;
      assert tail.Err? && tail.error.ReaderErr? ==> [] + [read.0] == [];
    case Err(e) =>
  }

  /** Input without any `*GEOMOBJECT` line: the first object fails, and
      that is a reader failure. */
  lemma {:induction false} NoObjectHeaderAnywhere<T>(lines: seq<string>, zero: T, conv: string -> Option<T>)
    requires NoneContain(lines, 0, |lines|, AseObject.HEADER)
    ensures ReadAll(lines, zero, conv) == Err(ReaderErr(FirstObjectFailed(NoObjectHeader)))
  {
    assert ReadAll(lines, zero, conv) == ReadRound(lines, 0, [], zero, conv);
  }

  /** A mesh failure in any object, even after good ones, fails the whole
      read with that same failure. */
  lemma {:induction false} MeshFailureIsFatal<T>(lines: seq<string>, p: Pos, acc: seq<AseObject.Object<T>>,
                                                 zero: T, conv: string -> Option<T>, e: MeshFailure)
    requires Valid(lines, p) && !p.eof
    requires AseObject.Read(lines, p.line, zero, conv) == Err(MeshErr(e))
    ensures ReadObjects(lines, p, acc, zero, conv) == Err(MeshErr(e))
  {
  }

  // ---------------------------------------------------------------------
  // Precision
  // ---------------------------------------------------------------------

  function SetAll<T>(objs: seq<AseObject.Object<T>>, precision: int): (r: seq<AseObject.Object<T>>)
    ensures |r| == |objs|
    ensures forall i :: 0 <= i < |objs| ==> r[i] == AseObject.SetPrecision(objs[i], precision)
  {
    if objs == [] then []
    else [AseObject.SetPrecision(objs[0], precision)] + SetAll(objs[1..], precision)
  }

  /** `setPrecision`: the reader's precision and every object's. */
  function SetPrecision<T>(s: Scene<T>, precision: int): (r: Scene<T>)
    ensures r.precision == precision
    ensures |r.objects| == |s.objects|
    ensures forall i :: 0 <= i < |s.objects| ==>
      && r.objects[i].mesh.precision == precision
      && r.objects[i].name == s.objects[i].name
      && AseObject.Save(r.objects[i]) == AseObject.Save(s.objects[i])
  {
    Scene(precision, SetAll(s.objects, precision))
  }

  // ---------------------------------------------------------------------
  // The merged export
  // ---------------------------------------------------------------------

  /** A triple with every corner moved up by `offset`. */
  function Shift(t: AseMesh.Triple, offset: nat): AseMesh.Triple {
    AseMesh.Triple(t.v1 + offset, t.v2 + offset, t.v3 + offset)
  }

  function ShiftAll(ts: seq<AseMesh.Triple>, offset: nat): (r: seq<AseMesh.Triple>)
    ensures |r| == |ts|
    ensures forall i {:trigger r[i]} :: 0 <= i < |ts| ==> r[i] == Shift(ts[i], offset)
  {
    if ts == [] then [] else [Shift(ts[0], offset)] + ShiftAll(ts[1..], offset)
  }

  /** Two outputs written one after the other. */
  function Append<T>(a: AseMesh.MeshOutput<T>, b: AseMesh.MeshOutput<T>): AseMesh.MeshOutput<T> {
    AseMesh.MeshOutput(a.numVertices + b.numVertices, a.numFaces + b.numFaces,
                       a.elements + b.elements, a.vertices + b.vertices)
  }

  function Nothing<T>(): AseMesh.MeshOutput<T> {
    AseMesh.MeshOutput(0, 0, [], [])
  }

  /** One object's contribution to the merged export, its vertex
      references moved past the `offset` vertices of earlier objects. */
  function Contribution<T>(o: AseObject.Object<T>, offset: nat): (out: AseMesh.MeshOutput<T>)
    ensures out.numVertices == o.mesh.numVertices && out.numFaces == o.mesh.numFaces
    ensures out.vertices == o.mesh.vertices
    ensures |out.elements| == |o.mesh.faces|
    ensures forall i {:trigger out.elements[i]} :: 0 <= i < |o.mesh.faces| ==>
      out.elements[i] == Shift(AseMesh.Corners(o.mesh.faces[i]), offset)
  {
    var own := AseObject.Save(o);
    own.(elements := ShiftAll(own.elements, offset))
  }

  /** The body of `save(std::ostream&...)` from object `k` on, with
      `offset` vertices already written.  The offset grows by each object's
      declared vertex count, which is what its info output holds. */
  function MergeFrom<T>(objs: seq<AseObject.Object<T>>, k: nat, offset: nat): AseMesh.MeshOutput<T>
    requires k <= |objs|
    decreases |objs| - k
  {
    if k == |objs| then Nothing()
    else Append(Contribution(objs[k], offset), MergeFrom(objs, k + 1, offset + objs[k].mesh.numVertices))
  }

  /** `save(std::ostream&, std::ostream&, std::ostream&)`. */
  function Save<T>(s: Scene<T>): AseMesh.MeshOutput<T> {
    MergeFrom(s.objects, 0, 0)
  }

  /** `save(std::string_view dir)` refuses an empty reader before writing
      anything. */
  function SaveToDir<T>(s: Scene<T>): (r: Result<AseMesh.MeshOutput<T>>)
    ensures r.Err? <==> s.objects == []
    ensures r.Err? ==> r.error == ReaderErr(NothingToSave)
    ensures r.Ok? ==> r.value == Save(s)
  {
    if s.objects == [] then Err(ReaderErr(NothingToSave)) else Ok(Save(s))
  }

  // Reference quantities for the merge, over the objects `j` to `k - 1`.

  function VerticesBetween<T>(objs: seq<AseObject.Object<T>>, j: nat, k: nat): nat
    requires j <= k <= |objs|
    decreases k - j
  {
    if j == k then 0 else objs[j].mesh.numVertices + VerticesBetween(objs, j + 1, k)
  }

  function FacesBetween<T>(objs: seq<AseObject.Object<T>>, j: nat, k: nat): nat
    requires j <= k <= |objs|
    decreases k - j
  {
    if j == k then 0 else objs[j].mesh.numFaces + FacesBetween(objs, j + 1, k)
  }

  function ElementsBetween<T>(objs: seq<AseObject.Object<T>>, j: nat, k: nat): nat
    requires j <= k <= |objs|
    decreases k - j
  {
    if j == k then 0 else |objs[j].mesh.faces| + ElementsBetween(objs, j + 1, k)
  }

  function VertexListBetween<T>(objs: seq<AseObject.Object<T>>, j: nat, k: nat): seq<Vertices.Vertex<T>>
    requires j <= k <= |objs|
    decreases k - j
  {
    if j == k then [] else objs[j].mesh.vertices + VertexListBetween(objs, j + 1, k)
  }

  /** The merged counts are the sums of the objects' counts, the vertices
      are every object's vertices in order, and there is one element per
      face. */
  lemma {:induction false} MergeTotals<T>(objs: seq<AseObject.Object<T>>, k: nat, offset: nat)
    requires k <= |objs|
    ensures MergeFrom(objs, k, offset).numVertices == VerticesBetween(objs, k, |objs|)
    ensures MergeFrom(objs, k, offset).numFaces == FacesBetween(objs, k, |objs|)
    ensures MergeFrom(objs, k, offset).vertices == VertexListBetween(objs, k, |objs|)
    ensures |MergeFrom(objs, k, offset).elements| == ElementsBetween(objs, k, |objs|)
    decreases |objs| - k
  {
    if k < |objs| {
      MergeTotals(objs, k + 1, offset + objs[k].mesh.numVertices);
    }
  }

  lemma {:induction false} AppendAssoc<T>(x: AseMesh.MeshOutput<T>, y: AseMesh.MeshOutput<T>, z: AseMesh.MeshOutput<T>)
    ensures Append(x, Append(y, z)) == Append(Append(x, y), z)
  {
    assert x.elements + (y.elements + z.elements) == (x.elements + y.elements) + z.elements;
    assert x.vertices + (y.vertices + z.vertices) == (x.vertices + y.vertices) + z.vertices;
  }

  lemma {:induction false} AppendNothing<T>(x: AseMesh.MeshOutput<T>)
    ensures Append(x, Nothing()) == x && Append(Nothing(), x) == x
  {
    assert x.elements + [] == x.elements && x.vertices + [] == x.vertices;
    assert [] + x.elements == x.elements && [] + x.vertices == x.vertices;
  }

  /** Face `i` of object `k` becomes the element after the elements of the
      objects `j` to `k - 1`, with its corners moved up by the vertex counts
      of those objects. */
  lemma {:induction false} MergedElement<T>(objs: seq<AseObject.Object<T>>, j: nat, offset: nat, k: nat, i: nat)
    requires j <= k < |objs| && i < |objs[k].mesh.faces|
    ensures ElementsBetween(objs, j, k) + i < |MergeFrom(objs, j, offset).elements|
    ensures MergeFrom(objs, j, offset).elements[ElementsBetween(objs, j, k) + i]
         == Shift(AseMesh.Corners(objs[k].mesh.faces[i]), offset + VerticesBetween(objs, j, k))
    decreases k - j
  {
    if j == k {
      FirstObjectElement(objs, k, offset, i);
    } else {
      MergedElement(objs, j + 1, offset + objs[j].mesh.numVertices, k, i);
      LaterObjectElement(objs, j, offset, k, i);
    }
  }

  /** The elements of the object the export starts at come first, moved up
      by the offset. */
  lemma {:induction false} FirstObjectElement<T>(objs: seq<AseObject.Object<T>>, k: nat, offset: nat, i: nat)
    requires k < |objs| && i < |objs[k].mesh.faces|
    ensures ElementsBetween(objs, k, k) + i < |MergeFrom(objs, k, offset).elements|
    ensures MergeFrom(objs, k, offset).elements[ElementsBetween(objs, k, k) + i]
         == Shift(AseMesh.Corners(objs[k].mesh.faces[i]), offset + VerticesBetween(objs, k, k))
  {
    var head := Contribution(objs[k], offset).elements;
    var tail := MergeFrom(objs, k + 1, offset + objs[k].mesh.numVertices).elements;
    assert (head + tail)[i] == head[i];
  }

  /** An element of a later object is the element the rest of the export
      puts at the matching place, after object `j`'s elements. */
  lemma {:induction false} LaterObjectElement<T>(objs: seq<AseObject.Object<T>>, j: nat, offset: nat, k: nat, i: nat)
    requires j < k < |objs| && i < |objs[k].mesh.faces|
    requires ElementsBetween(objs, j + 1, k) + i
           < |MergeFrom(objs, j + 1, offset + objs[j].mesh.numVertices).elements|
    requires MergeFrom(objs, j + 1, offset + objs[j].mesh.numVertices).elements[ElementsBetween(objs, j + 1, k) + i]
          == Shift(AseMesh.Corners(objs[k].mesh.faces[i]),
                   offset + objs[j].mesh.numVertices + VerticesBetween(objs, j + 1, k))
    ensures ElementsBetween(objs, j, k) + i < |MergeFrom(objs, j, offset).elements|
    ensures MergeFrom(objs, j, offset).elements[ElementsBetween(objs, j, k) + i]
         == Shift(AseMesh.Corners(objs[k].mesh.faces[i]), offset + VerticesBetween(objs, j, k))
  {
    var n0 := objs[j].mesh.numVertices;
    var head := Contribution(objs[j], offset).elements;
    var tail := MergeFrom(objs, j + 1, offset + n0).elements;
    var at := ElementsBetween(objs, j + 1, k) + i;
    assert MergeFrom(objs, j, offset).elements == head + tail;
    assert ElementsBetween(objs, j, k) + i == |head| + at;
    assert VerticesBetween(objs, j, k) == n0 + VerticesBetween(objs, j + 1, k);
    assert (head + tail)[|head| + at] == tail[at];
  }

  /** Every face of every object refers to one of its own vertices. */
  predicate FacesInRange<T>(o: AseObject.Object<T>) {
    forall i :: 0 <= i < |o.mesh.faces| ==>
      var f := o.mesh.faces[i];
      f.v1 < o.mesh.numVertices && f.v2 < o.mesh.numVertices && f.v3 < o.mesh.numVertices
  }

  predicate ElementsBelow(es: seq<AseMesh.Triple>, n: nat) {
    forall i :: 0 <= i < |es| ==> es[i].v1 < n && es[i].v2 < n && es[i].v3 < n
  }

  /** When every object's faces stay within its own vertices, every merged
      element stays within the vertices written before and by its object:
      the offsets keep references valid. */
  lemma {:induction false} MergeKeepsReferencesValid<T>(objs: seq<AseObject.Object<T>>, k: nat, offset: nat)
    requires k <= |objs|
    requires forall m :: k <= m < |objs| ==> FacesInRange(objs[m])
    ensures ElementsBelow(MergeFrom(objs, k, offset).elements, offset + VerticesBetween(objs, k, |objs|))
    decreases |objs| - k
  {
    if k < |objs| {
      var head := Contribution(objs[k], offset);
      var n0 := objs[k].mesh.numVertices;
      var bound := offset + VerticesBetween(objs, k, |objs|);
      MergeKeepsReferencesValid(objs, k + 1, offset + n0);
      var tail := MergeFrom(objs, k + 1, offset + n0);
      assert FacesInRange(objs[k]);
      assert ElementsBelow(head.elements, offset + n0);
      var es := head.elements + tail.elements;
      forall m | 0 <= m < |es|
        ensures es[m].v1 < bound && es[m].v2 < bound && es[m].v3 < bound
      {
        if m >= |head.elements| {
          assert es[m] == tail.elements[m - |head.elements|];
        }
      }
    }
  }

  /** Moving object `k` from what is left to export to what is exported. */
  lemma {:induction false} MergeStep<T>(objs: seq<AseObject.Object<T>>, k: nat, done: AseMesh.MeshOutput<T>, offset: nat)
    requires k < |objs|
    ensures Append(done, MergeFrom(objs, k, offset))
         == Append(Append(done, Contribution(objs[k], offset)),
                   MergeFrom(objs, k + 1, offset + objs[k].mesh.numVertices))
  {
    AppendAssoc(done, Contribution(objs[k], offset), MergeFrom(objs, k + 1, offset + objs[k].mesh.numVertices));
  }

  /** What one iteration of the export loop appends. */
  lemma {:induction false} AppendContribution<T>(done: AseMesh.MeshOutput<T>, o: AseObject.Object<T>, offset: nat)
    ensures var own := AseObject.Save(o);
      Append(done, Contribution(o, offset))
      == AseMesh.MeshOutput(done.numVertices + own.numVertices, done.numFaces + own.numFaces,
                            done.elements + ShiftAll(own.elements, offset), done.vertices + own.vertices)
  {
  }

  /** The export loop as written: one object per iteration, its elements
      moved up by the running vertex count, which then grows by the
      object's declared vertex count. */
  method SaveMerged<T>(objs: seq<AseObject.Object<T>>) returns (out: AseMesh.MeshOutput<T>)
    ensures out == MergeFrom(objs, 0, 0)
    ensures out.numVertices == VerticesBetween(objs, 0, |objs|)
    ensures out.numFaces == FacesBetween(objs, 0, |objs|)
  {
    var numVertices: nat := 0;
    var numFaces: nat := 0;
    var vertices: seq<Vertices.Vertex<T>> := [];
    var elements: seq<AseMesh.Triple> := [];
    var k := 0;
    AppendNothing(MergeFrom(objs, 0, 0));
    while k < |objs|
      invariant 0 <= k <= |objs|
      invariant MergeFrom(objs, 0, 0)
             == Append(AseMesh.MeshOutput(numVertices, numFaces, elements, vertices), MergeFrom(objs, k, numVertices))
    {
      var own := AseObject.Save(objs[k]);
      var done := AseMesh.MeshOutput(numVertices, numFaces, elements, vertices);
      var moved := Append(done, Contribution(objs[k], numVertices));
      var next := numVertices + objs[k].mesh.numVertices;
      MergeStep(objs, k, done, numVertices);
      AppendContribution(done, objs[k], numVertices);
      vertices := vertices + own.vertices;
      elements := elements + ShiftAll(own.elements, numVertices);
      numVertices := numVertices + own.numVertices;
      numFaces := numFaces + own.numFaces;
      k := k + 1;
      assert AseMesh.MeshOutput(numVertices, numFaces, elements, vertices) == moved && numVertices == next;
    }
    out := AseMesh.MeshOutput(numVertices, numFaces, elements, vertices);
    AppendNothing(out);
    MergeTotals(objs, 0, 0);
  }

  /** A one-triangle object on vertices 0, 1, 2 contributes that triangle
      moved up by the offset. */
  lemma {:induction false} OneTriangle<T>(o: AseObject.Object<T>, offset: nat)
    requires o.mesh.faces == [Faces.Face(0, 0, 1, 2)]
    ensures Contribution(o, offset).elements == [AseMesh.Triple(offset, offset + 1, offset + 2)]
  {
    var c := Contribution(o, offset);
    assert c.elements[0] == Shift(AseMesh.Triple(0, 1, 2), offset);
  }

  /** Two one-triangle objects of 3 and 4 vertices: the second object's
      triangle refers to vertices 3..5 of the merged output. */
  lemma {:induction false} TwoObjectsExample<T>(n1: string, n2: string, v: Vertices.Vertex<T>)
    ensures var tri := [Faces.Face(0, 0, 1, 2)];
      var objs := [AseObject.Object(n1, AseMesh.Mesh(4, 3, 1, [v, v, v], tri)),
                   AseObject.Object(n2, AseMesh.Mesh(4, 4, 1, [v, v, v, v], tri))];
      var out := Save(Scene(4, objs));
      && out.numVertices == 7 && out.numFaces == 2
      && out.elements == [AseMesh.Triple(0, 1, 2), AseMesh.Triple(3, 4, 5)]
  {
    var tri := [Faces.Face(0, 0, 1, 2)];
    var o1 := AseObject.Object(n1, AseMesh.Mesh(4, 3, 1, [v, v, v], tri));
    var o2 := AseObject.Object(n2, AseMesh.Mesh(4, 4, 1, [v, v, v, v], tri));
    var objs := [o1, o2];
    OneTriangle(o1, 0);
    OneTriangle(o2, 3);
    assert MergeFrom(objs, 2, 7) == Nothing();
    assert MergeFrom(objs, 1, 3) == Append(Contribution(o2, 3), Nothing());
    assert MergeFrom(objs, 0, 0) == Append(Contribution(o1, 0), MergeFrom(objs, 1, 3));
  }
}
