/** Forward-only scanning of the input stream, line by line.

    Every parser of the reader pulls lines with `std::getline` and never
    goes back.  The stream is the sequence of its lines plus a `Pos`: the
    index of the next line `getline` returns, and whether a `getline` has
    already failed for lack of input (the stream's `eof()` flag).  Once
    `eof` is set the position is past the last line and every later
    `getline` fails too.

    Two loop shapes occur: a search for the first line that contains a
    marker (`line.find(marker) != npos`), and a run of consecutive lines
    whose first token is a record tag, ended by the first line that does not
    match; that line is consumed and dropped.
 */
module LineScan {
  import opened Results
  import opened Text

  datatype Pos = Pos(line: nat, eof: bool)

  /** A position that can occur: within the input, and past its end when
      `eof` is set. */
  predicate Valid(lines: seq<string>, p: Pos) {
    p.line <= |lines| && (p.eof ==> p.line == |lines|)
  }

  /** The position after a loop that stopped by consuming line `k`, or
      that ran out of lines (`k == |lines|`), which sets `eof`. */
  function After(lines: seq<string>, k: nat): (p: Pos)
    requires k <= |lines|
    ensures Valid(lines, p)
    ensures p.line > k || p.eof
  {
    if k < |lines| then Pos(k + 1, false) else Pos(|lines|, true)
  }

  ghost predicate NoneContain(lines: seq<string>, lo: nat, hi: nat, marker: string) {
    forall j {:trigger Contains(lines[j], marker)} :: lo <= j < hi && j < |lines| ==> !Contains(lines[j], marker)
  }

  /** `while (std::getline(is, line)) { if (line.find(marker) != npos) ... }`:
      the index of the first line at or after `from` that contains `marker`. */
  function FindLine(lines: seq<string>, from: nat, marker: string): (r: Option<nat>)
    ensures r.Some? ==> from <= r.value < |lines| && Contains(lines[r.value], marker)
    ensures r.Some? ==> NoneContain(lines, from, r.value, marker)
    ensures r.None? <==> NoneContain(lines, from, |lines|, marker)
    decreases |lines| - from
  {
    if from >= |lines| then None
    else if Contains(lines[from], marker) then Some(from)
    else FindLine(lines, from + 1, marker)
  }

  /** Where the stream stands after such a search: past the matching line,
      or at the end with `eof` set. */
  function AfterFind(lines: seq<string>, r: Option<nat>): (p: Pos)
    requires r.Some? ==> r.value < |lines|
    ensures Valid(lines, p)
  {
    match r
    case Some(k) => After(lines, k)
    case None => After(lines, |lines|)
  }

  /** Lines `from .. from + n - 1` all start with `tag`, and the next line,
      if there is one, does not. */
  ghost predicate IsMaximalRun(lines: seq<string>, from: nat, n: nat, tag: string) {
    && from + n <= |lines|
    && (forall i {:trigger FirstToken(lines[i])} :: from <= i < from + n ==> FirstToken(lines[i]) == tag)
    && (from + n < |lines| ==> FirstToken(lines[from + n]) != tag)
  }

  /** There is only one maximal run from a given line. */
  lemma {:induction false} MaximalRunUnique(lines: seq<string>, from: nat, n1: nat, n2: nat, tag: string)
    requires IsMaximalRun(lines, from, n1, tag) && IsMaximalRun(lines, from, n2, tag)
    ensures n1 == n2
  {
  }

  /** The loop
        `while (std::getline(is, line)) { ss >> name; if (name != tag) break; ss >> r; push(r); }`
      collecting one record per line of the run that starts at `from`,
      each parsed from the tokens after the tag.  `CollectRunMaximal` says
      which lines the records come from. */
  function CollectRun<R>(lines: seq<string>, from: nat, tag: string, parse: seq<string> -> R): (r: (seq<R>, Pos))
    requires from <= |lines|
    ensures from + |r.0| <= |lines|
    ensures r.1 == After(lines, from + |r.0|)
    decreases |lines| - from
  {
    if from == |lines| then ([], After(lines, from))
    else if FirstToken(lines[from]) != tag then ([], After(lines, from))
    else
      var rest := CollectRun(lines, from + 1, tag, parse);
      ([parse(Args(lines[from]))] + rest.0, rest.1)
  }

  /** The records are those of the maximal run of `tag` lines from `from`,
      one per line and in order; the line that ends the run is consumed. */
  lemma {:induction false} CollectRunMaximal<R>(lines: seq<string>, from: nat, tag: string, parse: seq<string> -> R)
    requires from <= |lines|
    ensures var r := CollectRun(lines, from, tag, parse);
      && IsMaximalRun(lines, from, |r.0|, tag)
      && (forall i :: 0 <= i < |r.0| ==> r.0[i] == parse(Args(lines[from + i])))
    decreases |lines| - from
  {
    if from < |lines| && FirstToken(lines[from]) == tag {
      CollectRunMaximal(lines, from + 1, tag, parse);
      var rest := CollectRun(lines, from + 1, tag, parse);
      var records := CollectRun(lines, from, tag, parse).0;
      assert records == [parse(Args(lines[from]))] + rest.0;
      var n := |rest.0|;
      forall i | from <= i < from + 1 + n ensures FirstToken(lines[i]) == tag {
        if i > from {
          assert FirstToken(lines[(from + 1) + (i - from - 1)]) == tag;
        }
      }
      forall i | 0 <= i < |records| ensures records[i] == parse(Args(lines[from + i])) {
        if i > 0 {
          assert records[i] == rest.0[i - 1];
          assert from + 1 + (i - 1) == from + i;
        }
      }
    }
  }
}
