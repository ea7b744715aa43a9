/** One geometric object of the scene (ase_object.hpp, `ASEObject`): a
    node name and a mesh.

    `read` runs three stages on the same stream: skip to the first line
    containing `*GEOMOBJECT`, take the name from the first later line
    containing `*NODE_NAME`, then parse the mesh.  The first two stages
    throw the object-level exception; the mesh stage throws the mesh-level
    one, which `read` lets through unchanged.
 */
module AseObject {
  import opened Results
  import opened Text
  import opened LineScan
  import AseMesh

  const HEADER := "*GEOMOBJECT"
  const NODE_NAME_HEADER := "*NODE_NAME"

  /** `std::string::npos`, the largest `std::size_t`. */
  const NPOS: nat := 0xFFFF_FFFF_FFFF_FFFF

  /** Arithmetic on `std::size_t` is modulo 2^64. */
  const SIZE_MODULUS: nat := 0x1_0000_0000_0000_0000

  datatype Object<T> = Object(name: string, mesh: AseMesh.Mesh<T>)

  // ---------------------------------------------------------------------
  // The name on a `*NODE_NAME` line
  // ---------------------------------------------------------------------

  /** `find_first_of(c)`, with `None` for `npos`. */
  function FindFirstOf(s: string, c: char): (r: Option<nat>)
    ensures r.Some? ==> r.value < |s| && s[r.value] == c
    ensures r.Some? ==> forall j :: 0 <= j < r.value ==> s[j] != c
    ensures r.None? <==> c !in s
  {
    if s == [] then None
    else if s[0] == c then Some(0)
    else match FindFirstOf(s[1..], c) {
      case None => None
      case Some(i) => Some(i + 1)
    }
  }

  /** `find_last_of(c)`, with `None` for `npos`. */
  function FindLastOf(s: string, c: char): (r: Option<nat>)
    ensures r.Some? ==> r.value < |s| && s[r.value] == c
    ensures r.Some? ==> forall j :: r.value < j < |s| ==> s[j] != c
    ensures r.None? <==> c !in s
  {
    if s == [] then None
    else if s[|s| - 1] == c then Some(|s| - 1)
    else FindLastOf(s[..|s| - 1], c)
  }

  /** A search result as the `std::size_t` the C++ code computes with. */
  function AsSize(r: Option<nat>): nat {
    match r
    case None => NPOS
    case Some(i) => i
  }

  /** `s.substr(pos, count)`: at most `count` characters from `pos`.  The
      positions used below never exceed the length, so the out-of-range
      exception cannot occur. */
  function Substr(s: string, pos: nat, count: nat): (r: string)
    requires pos <= |s|
    ensures |r| <= |s| - pos
    ensures r == s[pos..pos + |r|]
    ensures |r| == if count < |s| - pos then count else |s| - pos
  {
    if count < |s| - pos then s[pos..pos + count] else s[pos..]
  }

  /** The two `substr` calls of `readName`: drop everything up to and
      including the first double quote (all of nothing when there is none,
      since `npos + 1` wraps to 0), then everything from the last double
      quote of what remains (nothing when there is none). */
  function ExtractName(line: string): (name: string)
    ensures |name| <= |line|
  {
    var first := (AsSize(FindFirstOf(line, '"')) + 1) % SIZE_MODULUS;
    var afterQuote := Substr(line, first, NPOS);
    Substr(afterQuote, 0, AsSize(FindLastOf(afterQuote, '"')))
  }

  /** A `std::string` is always shorter than `npos`. */
  predicate FitsSize(s: string) {
    |s| < NPOS
  }

  /** A line without double quotes is taken whole. */
  lemma {:induction false} NameWithoutQuotes(line: string)
    requires FitsSize(line)
    requires '"' !in line
    ensures ExtractName(line) == line
  {
    assert (NPOS + 1) % SIZE_MODULUS == 0;
  }

  lemma {:induction false} FirstQuote(pre: string, rest: string)
    requires '"' !in pre
    ensures FindFirstOf(pre + "\"" + rest, '"') == Some(|pre|)
  {
    var s := pre + "\"" + rest;
    assert s[|pre|] == '"';
    assert forall j :: 0 <= j < |pre| ==> s[j] == pre[j];
  }

  lemma {:induction false} LastQuote(mid: string, post: string)
    requires '"' !in post
    ensures FindLastOf(mid + "\"" + post, '"') == Some(|mid|)
  {
    var s := mid + "\"" + post;
    assert s[|mid|] == '"';
    assert forall j :: |mid| < j < |s| ==> s[j] == post[j - |mid| - 1];
  }

  /** With a single double quote the name is everything after it. */
  lemma {:induction false} NameAfterSingleQuote(pre: string, post: string)
    requires FitsSize(pre + "\"" + post)
    requires '"' !in pre && '"' !in post
    ensures ExtractName(pre + "\"" + post) == post
  {
    var line := pre + "\"" + post;
    FirstQuote(pre, post);
    assert (|pre| + 1) % SIZE_MODULUS == |pre| + 1;
    assert line[|pre| + 1..] == post;
  }

  /** The name is what lies between the first and the last double quote;
      quotes inside it are kept. */
  lemma {:induction false} NameBetweenQuotes(pre: string, mid: string, post: string)
    requires FitsSize(pre + "\"" + mid + "\"" + post)
    requires '"' !in pre && '"' !in post
    ensures ExtractName(pre + "\"" + mid + "\"" + post) == mid
  {
    var line := pre + "\"" + mid + "\"" + post;
    assert line == pre + "\"" + (mid + "\"" + post);
    FirstQuote(pre, mid + "\"" + post);
    assert (|pre| + 1) % SIZE_MODULUS == |pre| + 1;
    var afterQuote := line[|pre| + 1..];
    assert afterQuote == mid + "\"" + post;
    LastQuote(mid, post);
    assert afterQuote[..|mid|] == mid;
  }

  // ---------------------------------------------------------------------
  // Reading
  // ---------------------------------------------------------------------

  /** `moveToHeader`: the line index after the first line, at or after
      `from`, that contains `*GEOMOBJECT`. */
  function MoveToHeader(lines: seq<string>, from: nat): (r: Result<nat>)
    ensures r.Ok? <==> !NoneContain(lines, from, |lines|, HEADER)
    ensures r.Ok? ==> from < r.value <= |lines| && Contains(lines[r.value - 1], HEADER)
    ensures r.Ok? ==> NoneContain(lines, from, r.value - 1, HEADER)
    ensures r.Err? ==> r.error == ObjectErr(NoObjectHeader)
  {
    match FindLine(lines, from, HEADER)
    case Some(k) => Ok(k + 1)
    case None => Err(ObjectErr(NoObjectHeader))
  }

  /** `readName`: the name on the first line, at or after `from`, that
      contains `*NODE_NAME`, and the line index after it. */
  function ReadName(lines: seq<string>, from: nat): (r: Result<(string, nat)>)
    ensures r.Ok? <==> !NoneContain(lines, from, |lines|, NODE_NAME_HEADER)
    ensures r.Ok? ==> from < r.value.1 <= |lines| && Contains(lines[r.value.1 - 1], NODE_NAME_HEADER)
    ensures r.Ok? ==> NoneContain(lines, from, r.value.1 - 1, NODE_NAME_HEADER)
    ensures r.Ok? ==> r.value.0 == ExtractName(lines[r.value.1 - 1])
    ensures r.Err? ==> r.error == ObjectErr(NoNodeName)
  {
    match FindLine(lines, from, NODE_NAME_HEADER)
    case Some(k) => Ok((ExtractName(lines[k]), k + 1))
    case None => Err(ObjectErr(NoNodeName))
  }

  /** `read(std::ifstream&)`: header, name, mesh, in that order, each stage
      starting where the previous one stopped. */
  function Read<T>(lines: seq<string>, from: nat, zero: T, conv: string -> Option<T>)
    : (r: Result<(Object<T>, Pos)>)
    requires from <= |lines|
    ensures r.Err? ==> r.error.ObjectErr? || r.error.MeshErr?
    ensures r == Err(ObjectErr(NoObjectHeader)) <==> NoneContain(lines, from, |lines|, HEADER)
    ensures r.Ok? ==> AseMesh.Consistent(r.value.0.mesh)
    ensures r.Ok? ==> r.value.0.mesh.precision == AseMesh.DEFAULT_PRECISION
    ensures r.Ok? ==> from < r.value.1.line && Valid(lines, r.value.1)
    ensures r.Ok? ==> MoveToHeader(lines, from).Ok? && ReadName(lines, MoveToHeader(lines, from).value).Ok?
    ensures r.Ok? ==>
      var name := ReadName(lines, MoveToHeader(lines, from).value).value;
      && r.value.0.name == name.0
      && AseMesh.Read(lines, name.1, zero, conv) == Ok((r.value.0.mesh, r.value.1))
  {
    var afterHeader :- MoveToHeader(lines, from);
    var name :- ReadName(lines, afterHeader);
    var mesh :- AseMesh.Read(lines, name.1, zero, conv);
    Ok((Object(name.0, mesh.0), mesh.1))
  }

  /** A mesh failure reaches the caller as it is, not as an object
      failure. */
  lemma {:induction false} MeshErrorPassesThrough<T>(lines: seq<string>, from: nat, zero: T, conv: string -> Option<T>)
    requires from <= |lines|
    requires MoveToHeader(lines, from).Ok?
    requires ReadName(lines, MoveToHeader(lines, from).value).Ok?
    requires AseMesh.Read(lines, ReadName(lines, MoveToHeader(lines, from).value).value.1, zero, conv).Err?
    ensures Read(lines, from, zero, conv)
         == Err(AseMesh.Read(lines, ReadName(lines, MoveToHeader(lines, from).value).value.1, zero, conv).error)
  {
  }

  /** The name must come after the header: a `*NODE_NAME` line before the
      first `*GEOMOBJECT` line is not seen. */
  lemma {:induction false} NameAfterHeader<T>(lines: seq<string>, from: nat, zero: T, conv: string -> Option<T>)
    requires from <= |lines|
    requires Read(lines, from, zero, conv).Ok?
    ensures MoveToHeader(lines, from).Ok?
    ensures Read(lines, from, zero, conv).value.0.name
         == ReadName(lines, MoveToHeader(lines, from).value).value.0
  {
  }

  // ---------------------------------------------------------------------
  // Precision and writing
  // ---------------------------------------------------------------------

  /** `setPrecision`: forwarded to the mesh; nothing else changes. */
  function SetPrecision<T>(o: Object<T>, precision: int): (r: Object<T>)
    ensures r.mesh.precision == precision
    ensures r.name == o.name
    ensures AseMesh.Write(r.mesh) == AseMesh.Write(o.mesh)
  {
    o.(mesh := AseMesh.SetPrecision(o.mesh, precision))
  }

  /** `save`: the mesh's three outputs; the name is not written. */
  function Save<T>(o: Object<T>): (out: AseMesh.MeshOutput<T>)
    ensures out.numVertices == o.mesh.numVertices && out.numFaces == o.mesh.numFaces
    ensures out.vertices == o.mesh.vertices
    ensures |out.elements| == |o.mesh.faces|
    ensures forall i {:trigger out.elements[i]} :: 0 <= i < |o.mesh.faces| ==> out.elements[i] == AseMesh.Corners(o.mesh.faces[i])
  {
    AseMesh.Write(o.mesh)
  }

  /** Renaming an object or changing its precision does not change what is
      saved. */
  lemma {:induction false} SaveIgnoresNameAndPrecision<T>(o: Object<T>, name: string, precision: int)
    ensures Save(SetPrecision(o, precision).(name := name)) == Save(o)
  {
  }
}
