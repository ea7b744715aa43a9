# ASE scene reader — a Dafny model

This project models the core of `ase_reader`. That C++ header library reads
3D scenes in the ASCII Scene Export (ASE) text format and exports their
geometry as three plain outputs:
- a counts file;
- a vertices file;
- an elements file of vertex-index triples.

The model follows the library's five core headers:

| module | header | what it models |
|---|---|---|
| `Faces` | `face.hpp` | the face record and `operator>>`: the face index, then a scan over flags in which `A:`, `B:` and `C:` set the three corners |
| `Vertices` | `vertex.hpp` | the vertex record and `operator>>`: an ordinal that is discarded, then x, y and z |
| `AseMesh` | `ase_mesh.hpp` | `ASEMesh::read` in one forward pass: `*MESH` header, the two count lines, the vertex list, the face list, the two count checks. Also `write` and `setPrecision` |
| `AseObject` | `ase_object.hpp` | `ASEObject::read`: `*GEOMOBJECT` header, `*NODE_NAME` with its quote handling, mesh. Also `save` and `setPrecision` |
| `AseReader` | `ase_reader.hpp` | `ASEReader`: the `while (!is.eof())` object loop and its partial-failure `catch`, `setPrecision`, and the merged export that moves every object's vertex references up by the vertices written before it |

Supporting modules:
- `Text` holds tokens, substring search and unsigned decimal numbers, as `std::string::find` and `operator>>` see them.
- `LineScan` holds the two loop shapes every parser uses over `std::getline`.
- `Results` holds the three exception classes, as variants of `Error`.

`AseText` is a reference renderer that produces canonical ASE text for meshes, objects and scenes. The round-trip lemmas are stated against it: reading back the rendered text gives the value that was rendered.

## How the model is set up

- **The stream.** An input stream is `seq<string>` (its lines) plus a `Pos`. A `Pos` holds the next line index and the stream's `eof()` flag. Every `getline` loop consumes the line it stops on, as the C++ loops do.
- **Coordinates.** The coordinate type is a type parameter `T`:
  - `zero` stands for `T{}`;
  - `conv` stands for `operator>>` into `T` on one token. It returns `None` when extraction fails.

  Round trips assume a renderer `show` whose output `conv` reads back (`AseText.Printer`).
- **Integers.** Indices and counts are `nat`. `INVALID_INDEX` and `npos` are the 64-bit maximum. The `npos + 1` in `readName` wraps modulo 2^64 explicitly.
- **Exceptions.** A C++ exception is an `Err` of `Result`. Its variant is `MeshErr`, `ObjectErr` or `ReaderErr`, by exception class. The reader catches only `ObjectErr`, so the class matters.

## Model

| member | source | states |
|---|---|---|
| Faces.DefaultFace | include/ase_reader/face.hpp:38-41 | a default-constructed face has `INVALID_INDEX` (2^64 - 1) in its index and all three corners |
| Faces.ParseFace | include/ase_reader/face.hpp:44-75 | the face index is the first number read; when no index can be read, the face is all zeros |
| Faces.ScanItems | include/ase_reader/face.hpp:55-70 | over a line of tagged corners and other flags, the flag loop leaves each corner at the number after the LAST tag for that corner, or at the value it had when the tag is absent; other flags are skipped |
| Faces.ParseFaceOfItems | include/ase_reader/face.hpp:44-75 | a whole face line parses to its index and, for each corner, the number after the last tag for it, or 0 when the tag never appears; an index glued to a suffix such as `0:` is read as the number |
| Faces.LastTagWins | include/ase_reader/face.hpp:55-69 | when a corner tag repeats, the later number is the one kept |
| Faces.MissingTagIsZero | include/ase_reader/face.hpp:48-72 | a corner whose tag is missing parses to 0, which differs from the `INVALID_INDEX` a default face holds |
| Faces.TagOrderIrrelevant | include/ase_reader/face.hpp:55-70 | reordering the items of a face line does not change the parsed face, provided no corner is given two different numbers |
| Faces.ForwardTagsExample | include/ase_reader/face.hpp:53-72 | `0: A: 0 B: 1 C: 2` parses to face (0, 0, 1, 2) |
| Faces.ReversedTagsExample | include/ase_reader/face.hpp:53-72 | `0: C: 2 A: 0 B: 1` parses to the same face as the forward order |
| Vertices.DefaultVertex | include/ase_reader/vertex.hpp:31-33 | a default vertex holds `T{}` in each coordinate |
| Vertices.ParseVertex | include/ase_reader/vertex.hpp:36-48 | an unreadable ordinal leaves the default vertex; after a digit ordinal, three readable tokens become x, y, z in that order |
| Vertices.OrdinalDiscarded | include/ase_reader/vertex.hpp:43-46 | two vertex lines that differ only in their ordinal parse to the same vertex |
| Vertices.TrailingTokensIgnored | include/ase_reader/vertex.hpp:44-47 | tokens after the third coordinate do not change the vertex |
| Vertices.VertexRoundTrip | include/ase_reader/vertex.hpp:36-48 | an ordinal followed by three rendered coordinates reads back as the vertex, whatever the ordinal |
| Text.TokenizeUnwords | include/ase_reader/ase_mesh.hpp:202-206 | tokenising indentation followed by space-separated words gives back exactly those words: string extraction inverts joining with spaces |
| Text.FirstTokenContained | include/ase_reader/ase_mesh.hpp:140-149 | a line whose first token is a tag also contains that tag, so the `find` pre-filter of the count loops never rejects the line the `name ==` test would accept |
| Text.FindFrom | include/ase_reader/ase_mesh.hpp:128 | `find` returns the first position at which the pattern occurs, and `npos` exactly when it occurs nowhere |
| Text.ReadNat | include/ase_reader/ase_mesh.hpp:146-148 | unsigned extraction: it fails on no input; it yields 0 and fails when the token does not start with a digit; it reads all the digits of an all-digit token and leaves the rest of a token for the next extraction |
| Text.ReadNatOfText | include/ase_reader/face.hpp:53 | reading the decimal text of `n`, glued to a suffix that does not start with a digit, yields `n` and leaves the suffix as the next token |
| LineScan.FindLine | include/ase_reader/ase_object.hpp:70-76 | the marker search returns the first line at or after the start that contains the marker; it returns none exactly when no such line exists |
| LineScan.CollectRunMaximal | include/ase_reader/ase_mesh.hpp:201-215 | the record loop collects one record per line of the maximal run of lines whose first token is the tag, in order, each parsed from the tokens after the tag |
| LineScan.MaximalRunUnique | include/ase_reader/ase_mesh.hpp:201-209 | the run the record loop stops at is determined by the input: two maximal runs from one line have the same length |
| AseMesh.MoveToMeshHeader | include/ase_reader/ase_mesh.hpp:71-78 | succeeds exactly when some later line contains `*MESH` (also matching `*MESH_NUMVERTEX` and so on); stops just after the first such line; otherwise fails with the mesh exception |
| AseMesh.FindCountLine | include/ase_reader/ase_mesh.hpp:139-152 | the `find` then `name ==` loop selects the first line whose first token is exactly the tag; a line that only contains the tag is passed over |
| AseMesh.ReadCount | include/ase_reader/ase_mesh.hpp:136-158 | fails with the given mesh failure exactly when no later line starts with the tag; otherwise returns that line's value and the position after it |
| AseMesh.ReadCounts | include/ase_reader/ase_mesh.hpp:70-82 | the header, vertex-count and face-count stages fail only with mesh failures that are not count mismatches; a missing `*MESH` is reported exactly when no line contains it |
| AseMesh.ListStartOf | include/ase_reader/ase_mesh.hpp:187-197 | a list's records start after the first line containing its marker, or at the end of input when none does |
| AseMesh.ReadListRun | include/ase_reader/ase_mesh.hpp:184-218 | a list read returns the records of the maximal run after the marker line, in order, and stops after the line that ends the run, which is consumed |
| AseMesh.ReadListNoMarker | include/ase_reader/ase_mesh.hpp:193-197 | without a marker line, a list read returns no records and leaves the stream at eof; the missing marker is not reported |
| AseMesh.VertexListRun | include/ase_reader/ase_mesh.hpp:184-218 | the vertices are those parsed from the `*MESH_VERTEX` lines after `*MESH_VERTEX_LIST`, and the line ending the run is consumed before the face list is searched for |
| AseMesh.FaceListRun | include/ase_reader/ase_mesh.hpp:220-253 | the faces are those parsed from the `*MESH_FACE` lines after `*MESH_FACE_LIST`, in order |
| AseMesh.ReadLists | include/ase_reader/ase_mesh.hpp:84-104 | the list stages fail only with a count mismatch naming the declared count and a different actual length; on success the mesh is consistent, has the declared counts and has precision 4, its vertices are what the vertex-list stage read from `from`, its faces are what the face-list stage read from where that stage stopped, and reading resumes where the face-list stage stopped |
| AseMesh.Read | include/ase_reader/ase_mesh.hpp:70-105 | a mesh read fails only with mesh failures; it reports a missing `*MESH` exactly when none exists; a mismatch names two different numbers; a read mesh has list lengths equal to its counts and precision 4; its counts are the values of the two count lines, and its vertices, its faces and the resume position are what the list stages read, starting after the face-count line |
| AseMesh.VertexCountMismatchThrows | include/ase_reader/ase_mesh.hpp:84-95 | when the vertex run after the marker has a length other than the declared count, the read throws a vertex mismatch with both numbers |
| AseMesh.FaceCountMismatchThrows | include/ase_reader/ase_mesh.hpp:84-104 | with the vertex count right, a face run of a length other than the declared count throws a face mismatch with both numbers |
| AseMesh.FaceListTooShort | include/ase_reader/ase_mesh.hpp:97-104 | the list stages report a face mismatch when the face run, searched for after the line that ended the vertex run, has the wrong length |
| AseMesh.RunLength | include/ase_reader/ase_mesh.hpp:199-217 | a list read returns as many records as the maximal run has lines, and stops just after the run |
| AseMesh.SetPrecision | include/ase_reader/ase_mesh.hpp:55 | sets the precision and changes nothing else |
| AseMesh.SaveElements | include/ase_reader/ase_mesh.hpp:261-266 | one triple per face, in face order, holding that face's three corners; the face index is not written |
| AseMesh.Write | include/ase_reader/ase_mesh.hpp:107-113 | writes the declared counts, the corner triples of every face and the vertices; for a consistent mesh the counts equal the output lengths |
| AseMesh.WriteKeepsContent | include/ase_reader/ase_mesh.hpp:107-113 | two meshes have the same output if and only if they agree on the counts, the vertices and every face's corners; the face indices are not written, and the precision only sets number formatting, which is not modelled |
| AseObject.FindFirstOf | include/ase_reader/ase_object.hpp:89 | the first position of the character, or `npos` exactly when it does not occur |
| AseObject.FindLastOf | include/ase_reader/ase_object.hpp:90 | the last position of the character, or `npos` exactly when it does not occur |
| AseObject.Substr | include/ase_reader/ase_object.hpp:89-90 | `substr` returns the characters from the position, as many as the count allows and the string holds |
| AseObject.NameWithoutQuotes | include/ase_reader/ase_object.hpp:89-90 | a line without double quotes is taken whole, because `npos + 1` wraps to 0 and the second `substr` keeps everything |
| AseObject.NameAfterSingleQuote | include/ase_reader/ase_object.hpp:89-90 | with a single double quote, the name is everything after it |
| AseObject.NameBetweenQuotes | include/ase_reader/ase_object.hpp:89-90 | the name is what lies between the first and the last double quote, with any inner quotes kept |
| AseObject.MoveToHeader | include/ase_reader/ase_object.hpp:70-82 | stops after the first line containing `*GEOMOBJECT`; fails with the object exception exactly when no such line exists |
| AseObject.ReadName | include/ase_reader/ase_object.hpp:84-100 | takes the name from the first line containing `*NODE_NAME`; fails with the object exception exactly when none exists |
| AseObject.Read | include/ase_reader/ase_object.hpp:48-52 | fails only with object or mesh failures; a missing header is reported exactly when there is no header; a read object has a consistent mesh at precision 4; its name is the text between the quotes of the line after the header, and its mesh and the resume position are exactly what the mesh reader returns when started after that name line |
| AseObject.MeshErrorPassesThrough | include/ase_reader/ase_object.hpp:102-106 | a mesh failure reaches the caller unchanged, not converted to an object failure |
| AseObject.NameAfterHeader | include/ase_reader/ase_object.hpp:48-50 | the name comes from the first `*NODE_NAME` line after the header line |
| AseObject.SetPrecision | include/ase_reader/ase_object.hpp:31 | forwards the precision to the mesh; the name and the saved output are unchanged |
| AseObject.Save | include/ase_reader/ase_object.hpp:60-63 | the object's output is its mesh's counts, vertices and face corner triples; the name is not written |
| AseObject.SaveIgnoresNameAndPrecision | include/ase_reader/ase_object.hpp:60-63 | renaming an object or changing its precision leaves its saved output unchanged |
| AseReader.EmptyScene | include/ase_reader/ase_reader.hpp:139-141 | a new reader has precision 4 and no objects |
| AseReader.ReadObjects | include/ase_reader/ase_reader.hpp:118-137 | the object loop fails only with mesh or reader failures, and a reader failure only when no object had been read |
| AseReader.ReadRound | include/ase_reader/ase_reader.hpp:117-130 | one round keeps a read object and continues; it turns an object failure into the result so far, or into a reader failure when nothing was read; it passes a mesh failure on |
| AseReader.LoopExtends | include/ase_reader/ase_reader.hpp:118-122 | a successful loop returns a non-empty list that extends the objects already read and contains only parsed objects |
| AseReader.RoundExtends | include/ase_reader/ase_reader.hpp:119-121 | one round preserves that invariant |
| AseReader.ObjectFailureEndsLoop | include/ase_reader/ase_reader.hpp:123-126 | an object failure after at least one object ends the loop with the objects read so far |
| AseReader.ReadAll | include/ase_reader/ase_reader.hpp:113-137 | a successful read returns at least one object, each with a consistent mesh at precision 4; a failure is a mesh or reader failure |
| AseReader.Read | include/ase_reader/ase_reader.hpp:49 | reading replaces the objects and keeps the reader's own precision |
| AseReader.ReadIgnoresReaderPrecision | include/ase_reader/ase_reader.hpp:49 | every object read has precision 4, whatever the reader's precision |
| AseReader.NoObjectsFoundUnreachable | include/ase_reader/ase_reader.hpp:132-134 | the "No objects found" check after the loop never fires |
| AseReader.NoObjectHeaderAnywhere | include/ase_reader/ase_reader.hpp:123-129 | input without `*GEOMOBJECT` fails with a reader failure caused by the missing header |
| AseReader.MeshFailureIsFatal | include/ase_reader/ase_reader.hpp:117-130 | a mesh failure in any object, even after good ones, fails the whole read with that failure |
| AseReader.SetAll | include/ase_reader/ase_reader.hpp:31-33 | every object gets the new precision, in place and in order |
| AseReader.SetPrecision | include/ase_reader/ase_reader.hpp:29-34 | sets the reader's precision and every object's; names and saved outputs are unchanged |
| AseReader.ShiftAll | include/ase_reader/ase_reader.hpp:86-95 | every triple is moved up by the offset, in order |
| AseReader.Contribution | include/ase_reader/ase_reader.hpp:78-95 | an object's share of the export: its counts and vertices, with its face corners moved up by the running vertex count |
| AseReader.SaveToDir | include/ase_reader/ase_reader.hpp:51-55 | an empty reader is refused before anything is written; otherwise the merged export is produced |
| AseReader.MergeTotals | include/ase_reader/ase_reader.hpp:97-106 | the merged counts are the sums of the objects' counts; the vertices are all objects' vertices in order; there is one element per face (for objects that each have at least one vertex and face indices below 10^6; see the merge entries under Left out) |
| AseReader.MergedElement | include/ase_reader/ase_reader.hpp:86-100 | face i of object k becomes the element after all earlier objects' elements, with its corners moved up by the total vertex count of the earlier objects |
| AseReader.MergeKeepsReferencesValid | include/ase_reader/ase_reader.hpp:86-100 | when each object's faces refer to its own vertices, every merged element refers to a vertex of the merged output |
| AseReader.SaveMerged | include/ase_reader/ase_reader.hpp:73-107 | the export loop as written equals the object-by-object merge, with summed counts |
| AseReader.TwoObjectsExample | include/ase_reader/ase_reader.hpp:75-106 | two one-triangle objects of 3 and 4 vertices export as the elements `0 1 2` and `3 4 5`, with 7 vertices and 2 faces |
| AseText.MeshCountsRead | include/ase_reader/ase_mesh.hpp:70-82 | on rendered mesh text, the header and count stages return the two counts and stop after the face-count line |
| AseText.VertexListRead | include/ase_reader/ase_mesh.hpp:184-218 | a rendered vertex list, ended by its closing line, reads back as exactly its vertices, consuming the closing line |
| AseText.FaceListRead | include/ase_reader/ase_mesh.hpp:220-253 | a rendered face list, ended by its closing line, reads back as exactly its faces, consuming the closing line |
| AseText.MeshRoundTrip | include/ase_reader/ase_mesh.hpp:70-105 | reading back a rendered consistent mesh gives the mesh, stopping before its last closing line |
| AseText.MeshBlockRead | include/ase_reader/ase_mesh.hpp:70-105 | the same, for the mesh block placed anywhere in the input |
| AseText.NameLineNames | include/ase_reader/ase_object.hpp:84-93 | the rendered `*NODE_NAME "name"` line yields the name |
| AseText.ObjectRoundTrip | include/ase_reader/ase_object.hpp:48-52 | reading an object from any line before its rendered block, with no `*GEOMOBJECT` in between, gives the object |
| AseText.ObjectsRead | include/ase_reader/ase_reader.hpp:117-122 | the loop reads the objects of a rendered scene one after another, in order |
| AseText.TrailerEndsRead | include/ase_reader/ase_reader.hpp:118-126 | after the last object, the remaining lines end the loop quietly with the objects read |
| AseText.SceneRoundTrip | include/ase_reader/ase_reader.hpp:113-137 | a rendered scene with no other `*GEOMOBJECT` before or after reads back as exactly its objects, in order |
| AseText.CutObjectFails | include/ase_reader/ase_mesh.hpp:70-78 | an object block cut off after its name line fails in the mesh stage, for want of `*MESH` |
| AseText.TruncatedLastObject | include/ase_reader/ase_reader.hpp:117-130 | a scene followed by such a truncated object fails as a whole: the mesh exception is not caught, so the objects read before it are lost |

## Left out

- Opening files and creating directories (`read(std::string_view)`, the directory part of `save`) are left out because they are I/O. `SaveToDir` keeps only the empty-reader check. The `std::cout` notice is left out.
- The text formatting of output is left out: `std::setprecision`, `std::fixed`, floating-point output and the tab or space separators. Outputs are values, and precision is a stored number that no output depends on.
- Number extraction is simplified:
  - Signs, leading `+`, overflow of the target integer type and `operator>>` into floating-point types are not modelled. Coordinates go through the abstract `conv`.
  - `Text.ReadNat` reads unsigned decimal digits only.
- Vertices.ParseVertex: the ordinal is read into an `int` (include/ase_reader/vertex.hpp:43). The model reads it as an unbounded `nat`. An ordinal past 2^31 - 1 fails the stream and leaves the default vertex in the source, but is accepted here. A negative ordinal is also not modelled.
- When a count line has no number after its tag, `readMeshNumVertices` and `readMeshNumFaces` return an uninitialised `std::size_t`. The model returns 0.
- The `catch` in `readOject` carries the exception message. Messages are not modelled, only the exception class and which check failed.
- For an empty result, `readOject` throws "Failed to read object" from the `catch`. The model calls this `FirstObjectFailed`. The separate "No objects found" error cannot occur, as `AseReader.NoObjectsFoundUnreachable` shows.
- The merge adds vertex references with unbounded integers. `std::size_t` wrap-around past 2^64 vertices is not modelled.
- The merge does not model the `good()` loop that re-parses each object's elements text. It works on the triples `saveElements` writes. That loop reads them back unchanged only while every index prints as plain digits; see the `Index` entry below for where that stops.
- AseReader.MergeTotals: an object with no vertices writes nothing to its vertices stream, so `vertices_os << obj_vertices_os.rdbuf()` (include/ase_reader/ase_reader.hpp:84) inserts no characters and sets `failbit` on `vertices_os`. The vertices of every later object are then lost, while the counts and elements are still written. The model does not carry stream state and appends every object's vertices.
- AseReader.MergeTotals: face indices are floats in `ASEObject<T>` (see the `Index` entry below). An index of 10^6 or more is printed in exponent form such as `1e+06`, and the `std::size_t` reads of the `good()` loop (include/ase_reader/ase_reader.hpp:86-95) then stop at the `e`. The model reads every index back as written, so its merge result holds for indices below 10^6 only.
- AseReader.SaveMerged: it inherits both `AseReader.MergeTotals` limits above.
- The merge does not model the `obj_info_os >> num_vertices_obj` re-read. The model uses the declared counts, which is the text `saveInfo` wrote.
- `ASEObject::saveToDir`, `save` and the mesh `FileMode` refer to members `ASEMesh` does not declare (the mesh has `write`). The model takes `save` to mean the mesh's `write`.
- The `Index` template parameter of `ASEMesh` is not modelled. `ASEObject<T>` instantiates `ASEMesh<T>`, so faces would have float indices. Faces here use unsigned integer indices.
- `ASEReader::moveToHeader` does nothing, so it is not modelled.
- A last line without a newline is read by `getline` like any other line. The model does not distinguish the two.
- `AseObject.FitsSize`: names are only handled for lines shorter than `npos`, which every `std::string` is.
- When `readMeshVerticesList` or `readMeshFaceList` finds no list marker, it builds an error message but never throws it. The model keeps that behaviour: no error is raised (`AseMesh.ReadListNoMarker`).
- Every step of the vertex-list loop is modelled as written, including the line that ends a list run being consumed. So a `*MESH_FACE_LIST` marker placed directly after the last vertex line (with no closing brace line) is not found by the face-list search. Keeping that line for the next step would be the alternative design. The code does not do that, and the model follows the code (`AseMesh.VertexListRun` states where the face search starts).
- The canonical text of `AseText` omits records the reader skips (for example `*MESH_SMOOTHING` tokens on face lines or other object records). The round-trip lemmas therefore say nothing about files that contain them. The face lemmas do cover skipped flags on a face line.
- AseMesh.ReadCounts: its contract does not name the values it returns. `AseMesh.ReadCount` states those values for each count line, and `AseText.MeshCountsRead` states them for rendered text.
