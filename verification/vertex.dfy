/** The coordinate record of vertex.hpp: `Vertex<T>` and its `operator>>`.

    A vertex line reads `*MESH_VERTEX 0 -10.0 -10.0 0.0`.  After the record
    tag, the parser reads an `int` ordinal that it throws away, then x, y and
    z.  The coordinate type stays abstract: `zero` is `T{}` and `conv` is
    `operator>>` into `T` applied to one token (`None` when the token is not
    a number of that type).
 */
module Vertices {
  import opened Results
  import opened Text

  datatype Vertex<T> = Vertex(x: T, y: T, z: T)

  /** `Vertex()`: the value-initialised `T{}` in every coordinate. */
  function DefaultVertex<T>(zero: T): (v: Vertex<T>)
    ensures v.x == zero && v.y == zero && v.z == zero
  {
    Vertex(zero, zero, zero)
  }

  /** `is >> x >> y >> z` into value-initialised locals.  A failed
      extraction stores `T{}` and fails the stream, so that coordinate and
      every later one keep `zero`. */
  function ReadCoords<T>(ts: seq<string>, zero: T, conv: string -> Option<T>): (v: Vertex<T>)
  {
    if |ts| < 1 || conv(ts[0]).None? then
      Vertex(zero, zero, zero)
    else if |ts| < 2 || conv(ts[1]).None? then
      Vertex(conv(ts[0]).value, zero, zero)
    else if |ts| < 3 || conv(ts[2]).None? then
      Vertex(conv(ts[0]).value, conv(ts[1]).value, zero)
    else
      Vertex(conv(ts[0]).value, conv(ts[1]).value, conv(ts[2]).value)
  }

  /** `is >> v`: the ordinal is read and dropped, then the three coordinates.
      When the ordinal cannot be read the stream has failed and the vertex
      keeps its default coordinates. */
  function ParseVertex<T>(ts: seq<string>, zero: T, conv: string -> Option<T>): (v: Vertex<T>)
    ensures !ReadNat(ts).Got? ==> v == DefaultVertex(zero)
    ensures |ts| >= 4 && IsWord(ts[0]) && IsDigits(ts[0])
            && conv(ts[1]).Some? && conv(ts[2]).Some? && conv(ts[3]).Some?
            ==> v == Vertex(conv(ts[1]).value, conv(ts[2]).value, conv(ts[3]).value)
  {
    match ReadNat(ts)
    case Got(_, rest) => ReadCoords(rest, zero, conv)
    case _ => DefaultVertex(zero)
  }

  /** The ordinal is not stored anywhere: two vertex lines that differ only
      in their ordinal parse to the same vertex. */
  lemma {:induction false} OrdinalDiscarded<T>(o1: string, o2: string, rest: seq<string>, zero: T, conv: string -> Option<T>)
    requires IsWord(o1) && IsDigits(o1) && IsWord(o2) && IsDigits(o2)
    ensures ParseVertex([o1] + rest, zero, conv) == ParseVertex([o2] + rest, zero, conv)
  {
    assert ([o1] + rest)[1..] == rest && ([o2] + rest)[1..] == rest;
  }

  /** The tokens after the fourth do not matter. */
  lemma {:induction false} TrailingTokensIgnored<T>(ts: seq<string>, extra: seq<string>, zero: T, conv: string -> Option<T>)
    requires |ts| == 4 && IsWord(ts[0]) && IsDigits(ts[0])
    ensures ParseVertex(ts + extra, zero, conv) == ParseVertex(ts, zero, conv)
  {
    assert (ts + extra)[0] == ts[0];
    assert (ts + extra)[1..][..3] == ts[1..];
  }

  /** Reading back a vertex line written with a coordinate renderer that the
      conversion inverts gives back the vertex, whatever the ordinal. */
  lemma {:induction false} VertexRoundTrip<T>(k: nat, v: Vertex<T>, zero: T, conv: string -> Option<T>, show: T -> string)
    requires forall t :: conv(show(t)) == Some(t)
    ensures ParseVertex([NatToString(k), show(v.x), show(v.y), show(v.z)], zero, conv) == v
  {
    NatToStringDigits(k);
    assert conv(show(v.x)) == Some(v.x) && conv(show(v.y)) == Some(v.y) && conv(show(v.z)) == Some(v.z);
  }
}
