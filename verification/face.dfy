/** The triangle record of face.hpp: `Face<T>` and its `operator>>`.

    A face line reads `*MESH_FACE 0: A: 0 B: 1 C: 2 AB: 1 ...`.  After the
    record tag has been read by the mesh parser, the face parser reads the
    face index as a number and then treats every further token as a flag:
    `A:`, `B:` and `C:` are each followed by the vertex reference for that
    corner, any other flag is skipped.  Indices are `std::size_t`; they are
    `nat` here, and `INVALID_INDEX` is the largest 64-bit value.
 */
module Faces {
  import opened Text

  /** `static_cast<std::size_t>(-1)`. */
  const INVALID_INDEX: nat := 0xFFFF_FFFF_FFFF_FFFF

  const V1_HEADER := "A:"
  const V2_HEADER := "B:"
  const V3_HEADER := "C:"

  datatype Face = Face(index: nat, v1: nat, v2: nat, v3: nat)

  /** `Face()`: every field starts at the sentinel. */
  function DefaultFace(): (f: Face)
    ensures f.index == INVALID_INDEX
    ensures f.v1 == INVALID_INDEX && f.v2 == INVALID_INDEX && f.v3 == INVALID_INDEX
  {
    Face(INVALID_INDEX, INVALID_INDEX, INVALID_INDEX, INVALID_INDEX)
  }

  predicate IsTag(t: string) {
    t == V1_HEADER || t == V2_HEADER || t == V3_HEADER
  }

  /** The loop `while (is >> flag)` over the tokens after the face index;
      `f` holds the index and the corner values gathered so far.  A recognised
      flag followed by no token leaves its corner as it was; followed by a
      token that is not a number it sets the corner to 0; both end the loop
      because the stream has failed. */
  function ScanTags(ts: seq<string>, f: Face): (r: Face)
    ensures r.index == f.index
    decreases |ts|
  {
    if ts == [] then f
    else
      var flag := ts[0];
      var rest := ts[1..];
      if flag == V1_HEADER then
        match ReadNat(rest)
        case Exhausted => f
        case Mismatch => f.(v1 := 0)
        case Got(v, more) => ScanTags(more, f.(v1 := v))
      else if flag == V2_HEADER then
        match ReadNat(rest)
        case Exhausted => f
        case Mismatch => f.(v2 := 0)
        case Got(v, more) => ScanTags(more, f.(v2 := v))
      else if flag == V3_HEADER then
        match ReadNat(rest)
        case Exhausted => f
        case Mismatch => f.(v3 := 0)
        case Got(v, more) => ScanTags(more, f.(v3 := v))
      else
        ScanTags(rest, f)
  }

  /** `is >> f`: the index, then the flag scan.  The locals the C++ code
      fills are value-initialised, so every unset field is 0. */
  function ParseFace(ts: seq<string>): (f: Face)
    ensures ReadNat(ts).Got? ==> f.index == ReadNat(ts).value
    ensures !ReadNat(ts).Got? ==> f == Face(0, 0, 0, 0)
  {
    match ReadNat(ts)
    case Got(i, rest) => ScanTags(rest, Face(i, 0, 0, 0))
    case _ => Face(0, 0, 0, 0)
  }

  // ---------------------------------------------------------------------
  // A face line as a list of items, and what it means
  // ---------------------------------------------------------------------

  datatype Slot = A | B | C

  function SlotTag(s: Slot): string {
    match s
    case A => V1_HEADER
    case B => V2_HEADER
    case C => V3_HEADER
  }

  function SlotValue(f: Face, s: Slot): nat {
    match s
    case A => f.v1
    case B => f.v2
    case C => f.v3
  }

  /** What follows the index on a well-formed face line: a corner tag with its
      number, or some other flag (`AB:`, `*MESH_SMOOTHING`, `1`, ...). */
  datatype FaceItem = Tagged(slot: Slot, value: nat) | Other(token: string)

  predicate WellFormed(items: seq<FaceItem>) {
    forall i :: 0 <= i < |items| ==> items[i].Other? ==> !IsTag(items[i].token)
  }

  function ItemTokens(items: seq<FaceItem>): seq<string> {
    if items == [] then []
    else
      var head := match items[0]
        case Tagged(s, v) => [SlotTag(s), NatToString(v)]
        case Other(t) => [t];
      head + ItemTokens(items[1..])
  }

  /** The value of the last item tagged `s`, or `d` when there is none. */
  function LastValue(items: seq<FaceItem>, s: Slot, d: nat): nat {
    if items == [] then d
    else
      var last := items[|items| - 1];
      if last.Tagged? && last.slot == s then last.value
      else LastValue(items[..|items| - 1], s, d)
  }

  function Update(x: FaceItem, s: Slot, d: nat): nat {
    if x.Tagged? && x.slot == s then x.value else d
  }

  lemma {:induction false} LastValueCons(x: FaceItem, rest: seq<FaceItem>, s: Slot, d: nat)
    ensures LastValue([x] + rest, s, d) == LastValue(rest, s, Update(x, s, d))
    decreases |rest|
  {
    if rest == [] {
      assert [x] + rest == [x];
      assert [x][..0] == [];
    } else {
      var n := |rest|;
      assert ([x] + rest)[..n] == [x] + rest[..n - 1];
      LastValueCons(x, rest[..n - 1], s, d);
    }
  }

  lemma {:induction false} ItemTokensAppend(a: seq<FaceItem>, b: seq<FaceItem>)
    ensures ItemTokens(a + b) == ItemTokens(a) + ItemTokens(b)
  {
    if a == [] {
      assert a + b == b;
    } else {
      assert (a + b)[1..] == a[1..] + b;
      ItemTokensAppend(a[1..], b);
    }
  }

  /** The flag scan over a well-formed item list sets each corner to the value
      of the last item for that corner, or keeps the value it had. */
  lemma {:induction false} ScanItems(items: seq<FaceItem>, f: Face)
    requires WellFormed(items)
    ensures ScanTags(ItemTokens(items), f)
         == Face(f.index, LastValue(items, A, f.v1), LastValue(items, B, f.v2), LastValue(items, C, f.v3))
    decreases |items|
  {
    if items != [] {
      var x := items[0];
      var rest := items[1..];
      assert items == [x] + rest;
      assert WellFormed(rest) by {
        forall i | 0 <= i < |rest| ensures rest[i].Other? ==> !IsTag(rest[i].token) {
          assert rest[i] == items[i + 1];
        }
      }
      LastValueCons(x, rest, A, f.v1);
      LastValueCons(x, rest, B, f.v2);
      LastValueCons(x, rest, C, f.v3);
      match x
      case Tagged(s, v) =>
        var ts := [SlotTag(s), NatToString(v)] + ItemTokens(rest);
        assert ItemTokens(items) == ts;
        assert ts[1..] == [NatToString(v)] + ItemTokens(rest);
        ReadNatOfText(v, "", ItemTokens(rest));
        assert NatToString(v) + "" == NatToString(v);
        match s {
          case A => ScanItems(rest, f.(v1 := v));
          case B => ScanItems(rest, f.(v2 := v));
          case C => ScanItems(rest, f.(v3 := v));
        }
      case Other(t) =>
        assert !IsTag(t) by { assert items[0] == x; }
        assert ItemTokens(items) == [t] + ItemTokens(rest);
        ScanItems(rest, f);
    }
  }

  /** The index token of a face line: the number, possibly glued to text that
      is not a digit and not a corner tag, such as the `:` of `0:`. */
  predicate IndexSuffix(sfx: string) {
    sfx == [] || (!IsDigit(sfx[0]) && !IsTag(sfx))
  }

  /** What `operator>>` yields for a well-formed face line: the index, and for
      each corner the number after the LAST tag for that corner, or 0 when the
      tag never appears (not `INVALID_INDEX`). */
  lemma {:induction false} ParseFaceOfItems(index: nat, sfx: string, items: seq<FaceItem>)
    requires IndexSuffix(sfx)
    requires WellFormed(items)
    ensures ParseFace([NatToString(index) + sfx] + ItemTokens(items))
         == Face(index, LastValue(items, A, 0), LastValue(items, B, 0), LastValue(items, C, 0))
  {
    ReadNatOfText(index, sfx, ItemTokens(items));
    if sfx != [] {
      var items' := [Other(sfx)] + items;
      assert ItemTokens(items') == [sfx] + ItemTokens(items) by {
        assert items'[1..] == items;
      }
      assert WellFormed(items') by {
        forall i | 0 <= i < |items'| ensures items'[i].Other? ==> !IsTag(items'[i].token) {
          if i > 0 { assert items'[i] == items[i - 1]; }
        }
      }
      var f := Face(index, 0, 0, 0);
      ScanItems(items', f);
      LastValueCons(Other(sfx), items, A, 0);
      LastValueCons(Other(sfx), items, B, 0);
      LastValueCons(Other(sfx), items, C, 0);
    } else {
      ScanItems(items, Face(index, 0, 0, 0));
    }
  }

  // ---------------------------------------------------------------------
  // Consequences
  // ---------------------------------------------------------------------

  /** Every item for a corner agrees on its number. */
  ghost predicate Consistent(items: seq<FaceItem>) {
    forall i, j ::
      (0 <= i < |items| && 0 <= j < |items| && items[i].Tagged? && items[j].Tagged?
       && items[i].slot == items[j].slot) ==> items[i].value == items[j].value
  }

  lemma {:induction false} ConsistentLastValue(items: seq<FaceItem>, s: Slot, d: nat, i: nat)
    requires Consistent(items)
    requires i < |items| && items[i].Tagged? && items[i].slot == s
    ensures LastValue(items, s, d) == items[i].value
    decreases |items|
  {
    var n := |items|;
    var last := items[n - 1];
    if !(last.Tagged? && last.slot == s) {
      assert i < n - 1;
      var pre := items[..n - 1];
      assert pre[i] == items[i];
      assert Consistent(pre) by {
        forall a, b | 0 <= a < |pre| && 0 <= b < |pre| && pre[a].Tagged? && pre[b].Tagged? && pre[a].slot == pre[b].slot
          ensures pre[a].value == pre[b].value
        {
          assert pre[a] == items[a] && pre[b] == items[b];
        }
      }
      ConsistentLastValue(pre, s, d, i);
    }
  }

  lemma {:induction false} AbsentLastValue(items: seq<FaceItem>, s: Slot, d: nat)
    requires forall i :: 0 <= i < |items| && items[i].Tagged? ==> items[i].slot != s
    ensures LastValue(items, s, d) == d
    decreases |items|
  {
    if items != [] {
      var pre := items[..|items| - 1];
      assert forall i :: 0 <= i < |pre| ==> pre[i] == items[i];
      AbsentLastValue(pre, s, d);
    }
  }

  lemma {:induction false} SameSlotValue(items1: seq<FaceItem>, items2: seq<FaceItem>, s: Slot)
    requires multiset(items1) == multiset(items2)
    requires Consistent(items1)
    ensures LastValue(items1, s, 0) == LastValue(items2, s, 0)
  {
    if i :| 0 <= i < |items1| && items1[i].Tagged? && items1[i].slot == s {
      assert items1[i] in multiset(items2);
      var k :| 0 <= k < |items2| && items2[k] == items1[i];
      ConsistentLastValue(items1, s, 0, i);
      assert Consistent(items2) by {
        forall a, b | 0 <= a < |items2| && 0 <= b < |items2| && items2[a].Tagged? && items2[b].Tagged?
          && items2[a].slot == items2[b].slot
          ensures items2[a].value == items2[b].value
        {
          assert items2[a] in multiset(items1) && items2[b] in multiset(items1);
          var a' :| 0 <= a' < |items1| && items1[a'] == items2[a];
          var b' :| 0 <= b' < |items1| && items1[b'] == items2[b];
        }
      }
      ConsistentLastValue(items2, s, 0, k);
    } else {
      AbsentLastValue(items1, s, 0);
      forall k | 0 <= k < |items2| && items2[k].Tagged? ensures items2[k].slot != s {
        assert items2[k] in multiset(items1);
      }
      AbsentLastValue(items2, s, 0);
    }
  }

  /** Tags are independent key/value assignments: any reordering of a face
      line's items parses to the same face, as long as no corner is given two
      different numbers. */
  lemma {:induction false} TagOrderIrrelevant(index: nat, sfx: string, items1: seq<FaceItem>, items2: seq<FaceItem>)
    requires IndexSuffix(sfx)
    requires WellFormed(items1) && WellFormed(items2)
    requires multiset(items1) == multiset(items2)
    requires Consistent(items1)
    ensures ParseFace([NatToString(index) + sfx] + ItemTokens(items1))
         == ParseFace([NatToString(index) + sfx] + ItemTokens(items2))
  {
    ParseFaceOfItems(index, sfx, items1);
    ParseFaceOfItems(index, sfx, items2);
    SameSlotValue(items1, items2, A);
    SameSlotValue(items1, items2, B);
    SameSlotValue(items1, items2, C);
  }

  /** When a corner is tagged more than once, the last number wins. */
  lemma {:induction false} LastTagWins(index: nat, sfx: string, items: seq<FaceItem>, s: Slot, v: nat)
    requires IndexSuffix(sfx)
    requires WellFormed(items)
    ensures SlotValue(ParseFace([NatToString(index) + sfx] + ItemTokens(items + [Tagged(s, v)])), s) == v
  {
    var items' := items + [Tagged(s, v)];
    assert WellFormed(items') by {
      forall i | 0 <= i < |items'| ensures items'[i].Other? ==> !IsTag(items'[i].token) {
        if i < |items| { assert items'[i] == items[i]; }
      }
    }
    ParseFaceOfItems(index, sfx, items');
    assert items'[..|items'| - 1] == items;
  }

  /** A corner whose tag never appears is 0 after parsing, which is not the
      sentinel a default-constructed face holds. */
  lemma {:induction false} MissingTagIsZero(index: nat, sfx: string, items: seq<FaceItem>, s: Slot)
    requires IndexSuffix(sfx)
    requires WellFormed(items)
    requires forall i :: 0 <= i < |items| && items[i].Tagged? ==> items[i].slot != s
    ensures SlotValue(ParseFace([NatToString(index) + sfx] + ItemTokens(items)), s) == 0
    ensures SlotValue(ParseFace([NatToString(index) + sfx] + ItemTokens(items)), s)
         != SlotValue(DefaultFace(), s)
  {
    ParseFaceOfItems(index, sfx, items);
    AbsentLastValue(items, s, 0);
  }

  lemma {:induction false} ThreeItemTokens(x: FaceItem, y: FaceItem, z: FaceItem)
    requires x.Tagged? && y.Tagged? && z.Tagged?
    ensures ItemTokens([x, y, z])
         == [SlotTag(x.slot), NatToString(x.value), SlotTag(y.slot), NatToString(y.value),
             SlotTag(z.slot), NatToString(z.value)]
  {
    assert [x, y, z][1..] == [y, z];
    assert [y, z][1..] == [z];
    assert [z][1..] == [];
    assert ItemTokens([z]) == [SlotTag(z.slot), NatToString(z.value)];
    assert ItemTokens([y, z]) == [SlotTag(y.slot), NatToString(y.value)] + ItemTokens([z]);
  }

  /** The two example lines, written as item lists. */
  lemma {:induction false} ExampleLines()
    ensures [NatToString(0) + ":"] + ItemTokens([Tagged(A, 0), Tagged(B, 1), Tagged(C, 2)])
         == ["0:", "A:", "0", "B:", "1", "C:", "2"]
    ensures [NatToString(0) + ":"] + ItemTokens([Tagged(C, 2), Tagged(A, 0), Tagged(B, 1)])
         == ["0:", "C:", "2", "A:", "0", "B:", "1"]
  {
    assert NatToString(0) == "0" && NatToString(1) == "1" && NatToString(2) == "2";
    assert NatToString(0) + ":" == "0:";
    ThreeItemTokens(Tagged(A, 0), Tagged(B, 1), Tagged(C, 2));
    ThreeItemTokens(Tagged(C, 2), Tagged(A, 0), Tagged(B, 1));
  }

  lemma {:induction false} ForwardTagsExample()
    ensures ParseFace(["0:", "A:", "0", "B:", "1", "C:", "2"]) == Face(0, 0, 1, 2)
  {
    var fwd := [Tagged(A, 0), Tagged(B, 1), Tagged(C, 2)];
    ExampleLines();
    assert fwd[..2] == [Tagged(A, 0), Tagged(B, 1)] && fwd[..2][..1] == [Tagged(A, 0)];
    ParseFaceOfItems(0, ":", fwd);
  }

  /** Three items for three different corners. */
  lemma {:induction false} ThreeCorners(x: FaceItem, y: FaceItem, z: FaceItem)
    requires x.Tagged? && y.Tagged? && z.Tagged?
    requires x.slot != y.slot && y.slot != z.slot && x.slot != z.slot
    ensures WellFormed([x, y, z]) && Consistent([x, y, z])
  {
  }

  /** The ASE face line `0: C: 2 A: 0 B: 1` (tags reversed) parses exactly
      like `0: A: 0 B: 1 C: 2`, to the face (0, 0, 1, 2). */
  lemma {:induction false} ReversedTagsExample()
    ensures ParseFace(["0:", "C:", "2", "A:", "0", "B:", "1"])
         == ParseFace(["0:", "A:", "0", "B:", "1", "C:", "2"])
         == Face(0, 0, 1, 2)
  {
    var fwd := [Tagged(A, 0), Tagged(B, 1), Tagged(C, 2)];
    var rev := [Tagged(C, 2), Tagged(A, 0), Tagged(B, 1)];
    ExampleLines();
    ForwardTagsExample();
    ThreeCorners(Tagged(A, 0), Tagged(B, 1), Tagged(C, 2));
    ThreeCorners(Tagged(C, 2), Tagged(A, 0), Tagged(B, 1));
    assert multiset(fwd) == multiset(rev);
    assert IndexSuffix(":");
    TagOrderIrrelevant(0, ":", rev, fwd);
  }
}
