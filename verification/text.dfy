/** Character- and token-level text handling shared by the ASE parsers.

    The C++ code works on `std::string` lines with three primitives:
    `std::string::find` (a substring search), `operator>>` into a
    `std::string` (the next whitespace-delimited token) and `operator>>`
    into an unsigned integer (a run of decimal digits).  This module states
    each of them over `string == seq<char>`.

    A line after its leading tokens have been read is modelled as a list of
    tokens.  When a number is read from a token that carries more characters
    after its digits (the face ordinal `0:` of real ASE files), the digits
    are consumed and the rest of the token stays in the stream as the next
    token, just as `operator>>` leaves it.
 */
module Text {
  import opened Results

  /** The characters `std::isspace` accepts in the "C" locale. */
  predicate IsSpace(c: char) {
    c == ' ' || c == '\t' || c == '\n' || c == '\r' || c == '\U{000B}' || c == '\U{000C}'
  }

  predicate IsDigit(c: char) {
    '0' <= c <= '9'
  }

  /** A token as `operator>>` into a `std::string` produces it. */
  predicate IsWord(w: string) {
    w != [] && forall i :: 0 <= i < |w| ==> !IsSpace(w[i])
  }

  /** Indentation: whitespace only. */
  predicate IsPad(p: string) {
    forall i :: 0 <= i < |p| ==> IsSpace(p[i])
  }

  predicate IsDigits(s: string) {
    forall i {:trigger IsDigit(s[i])} :: 0 <= i < |s| ==> IsDigit(s[i])
  }

  // ---------------------------------------------------------------------
  // Tokens
  // ---------------------------------------------------------------------

  /** `s` without its leading whitespace. */
  function DropSpaces(s: string): string {
    if s != [] && IsSpace(s[0]) then DropSpaces(s[1..]) else s
  }

  lemma {:induction false} DropSpacesSpec(s: string)
    ensures |DropSpaces(s)| <= |s| && DropSpaces(s) == s[|s| - |DropSpaces(s)|..]
    ensures IsPad(s[..|s| - |DropSpaces(s)|])
    ensures DropSpaces(s) == [] || !IsSpace(DropSpaces(s)[0])
  {
    if s != [] && IsSpace(s[0]) {
      var r := DropSpaces(s[1..]);
      assert DropSpaces(s) == r;
      DropSpacesSpec(s[1..]);
      var k := |s| - |r|;
      assert s[..k] == [s[0]] + s[1..][..k - 1];
      assert s[1..][k - 1..] == s[k..];
    }
  }

  /** Length of the run of non-whitespace characters that starts `s`. */
  function WordLen(s: string): nat {
    if s == [] || IsSpace(s[0]) then 0 else 1 + WordLen(s[1..])
  }

  lemma {:induction false} WordLenSpec(s: string)
    ensures WordLen(s) <= |s|
    ensures forall i :: 0 <= i < WordLen(s) ==> !IsSpace(s[i])
    ensures WordLen(s) < |s| ==> IsSpace(s[WordLen(s)])
  {
    if s != [] && !IsSpace(s[0]) {
      WordLenSpec(s[1..]);
    }
  }

  /** The tokens successive `operator>>` calls into a `std::string` read from `s`. */
  function Tokenize(s: string): seq<string>
    decreases |s|
  {
    var t := DropSpaces(s);
    if t == [] then []
    else
      var n := WordLen(t);
      DropSpacesSpec(s);
      WordLenSpec(t);
      [t[..n]] + Tokenize(t[n..])
  }

  lemma {:induction false} TokenizeWords(s: string)
    ensures forall i :: 0 <= i < |Tokenize(s)| ==> IsWord(Tokenize(s)[i])
    decreases |s|
  {
    var t := DropSpaces(s);
    if t != [] {
      var n := WordLen(t);
      DropSpacesSpec(s);
      WordLenSpec(t);
      TokenizeWords(t[n..]);
    }
  }

  /** The record tag of a line: the token `ss >> name` reads, or the empty
      string (the value `name` keeps) when the line is blank. */
  function FirstToken(s: string): string {
    var ts := Tokenize(s);
    if ts == [] then "" else ts[0]
  }

  /** The tokens that follow the record tag. */
  function Args(s: string): seq<string> {
    var ts := Tokenize(s);
    if ts == [] then [] else ts[1..]
  }

  /** Tokens joined by single spaces. */
  function Unwords(ws: seq<string>): string {
    if ws == [] then ""
    else if |ws| == 1 then ws[0]
    else ws[0] + " " + Unwords(ws[1..])
  }

  lemma {:induction false} DropPad(pad: string, r: string)
    requires IsPad(pad)
    requires r == [] || !IsSpace(r[0])
    ensures DropSpaces(pad + r) == r
  {
    if pad != [] {
      assert (pad + r)[1..] == pad[1..] + r;
      DropPad(pad[1..], r);
    } else {
      assert pad + r == r;
    }
  }

  lemma {:induction false} WordLenOfWord(w: string, r: string)
    requires IsWord(w)
    requires r == [] || IsSpace(r[0])
    ensures WordLen(w + r) == |w|
  {
    WordLenSpec(w + r);
    assert (w + r)[..|w|] == w;
  }

  /** One step of `Tokenize`: a line whose text after the indentation starts
      with the word `w`, followed by nothing or by whitespace. */
  lemma {:induction false} TokenizeStep(s: string, w: string, r: string)
    requires IsWord(w)
    requires r == [] || IsSpace(r[0])
    requires DropSpaces(s) == w + r
    ensures Tokenize(s) == [w] + Tokenize(r)
  {
    WordLenOfWord(w, r);
    assert (w + r)[..|w|] == w;
    assert (w + r)[|w|..] == r;
  }

  /** Tokenising indentation followed by space-separated tokens gives back
      exactly those tokens: `Unwords` is a right inverse of `Tokenize`. */
  lemma {:induction false} TokenizeUnwords(pad: string, ws: seq<string>)
    requires IsPad(pad)
    requires forall i :: 0 <= i < |ws| ==> IsWord(ws[i])
    ensures Tokenize(pad + Unwords(ws)) == ws
    decreases |ws|
  {
    if ws == [] {
      assert pad + Unwords(ws) == pad + "";
      DropPad(pad, "");
    } else if |ws| == 1 {
      TokenizeLast(pad, ws[0]);
    } else {
      var tail := ws[1..];
      TokenizeUnwords(" ", tail);
      TokenizeCons(pad, ws[0], tail);
      assert ws == [ws[0]] + tail;
    }
  }

  lemma {:induction false} TokenizeLast(pad: string, w: string)
    requires IsPad(pad) && IsWord(w)
    ensures Tokenize(pad + Unwords([w])) == [w]
  {
    assert pad + Unwords([w]) == pad + (w + "");
    DropPad(pad, w + "");
    TokenizeStep(pad + Unwords([w]), w, "");
    DropPad("", "");
  }

  lemma {:induction false} TokenizeCons(pad: string, w: string, tail: seq<string>)
    requires IsPad(pad) && IsWord(w) && tail != []
    ensures Tokenize(pad + Unwords([w] + tail)) == [w] + Tokenize(" " + Unwords(tail))
  {
    var rest := " " + Unwords(tail);
    assert ([w] + tail)[1..] == tail;
    assert Unwords([w] + tail) == w + rest;
    assert pad + Unwords([w] + tail) == pad + (w + rest);
    DropPad(pad, w + rest);
    TokenizeStep(pad + Unwords([w] + tail), w, rest);
  }

  lemma {:induction false} FirstTokenOfUnwords(pad: string, ws: seq<string>)
    requires IsPad(pad)
    requires forall i :: 0 <= i < |ws| ==> IsWord(ws[i])
    ensures FirstToken(pad + Unwords(ws)) == (if ws == [] then "" else ws[0])
    ensures Args(pad + Unwords(ws)) == (if ws == [] then [] else ws[1..])
  {
    TokenizeUnwords(pad, ws);
  }

  // ---------------------------------------------------------------------
  // Substring search
  // ---------------------------------------------------------------------

  predicate OccursAt(s: string, p: string, i: nat) {
    i + |p| <= |s| && s[i..i + |p|] == p
  }

  /** `s.find(p, i)`: the first position at or after `i` where `p` occurs. */
  function FindFrom(s: string, p: string, i: nat): (r: Option<nat>)
    ensures r.Some? ==> i <= r.value && OccursAt(s, p, r.value)
    ensures r.Some? ==> forall j :: i <= j < r.value ==> !OccursAt(s, p, j)
    ensures r.None? ==> forall j :: i <= j ==> !OccursAt(s, p, j)
    decreases |s| - i
  {
    if i + |p| > |s| then None
    else if s[i..i + |p|] == p then Some(i)
    else FindFrom(s, p, i + 1)
  }

  /** `s.find(p) != std::string::npos`. */
  predicate Contains(s: string, p: string) {
    FindFrom(s, p, 0).Some?
  }

  lemma {:induction false} OccursContains(s: string, p: string, i: nat)
    requires OccursAt(s, p, i)
    ensures Contains(s, p)
  {
  }

  lemma {:induction false} ContainsMiddle(a: string, p: string, b: string)
    ensures Contains(a + p + b, p)
  {
    assert (a + p + b)[|a|..|a| + |p|] == p;
    OccursContains(a + p + b, p, |a|);
  }

  lemma {:induction false} ShortNotContains(s: string, p: string)
    requires |s| < |p|
    ensures !Contains(s, p)
  {
  }

  /** The tag `ss >> name` reads is a substring of the line, so a line whose
      first token is a marker also passes the `find` test for that marker. */
  lemma {:induction false} FirstTokenContained(s: string)
    requires FirstToken(s) != ""
    ensures Contains(s, FirstToken(s))
  {
    var t := DropSpaces(s);
    var n := WordLen(t);
    var k := |s| - |t|;
    DropSpacesSpec(s);
    WordLenSpec(t);
    assert FirstToken(s) == t[..n];
    assert s[k..k + n] == t[..n];
    OccursContains(s, t[..n], k);
  }

  // ---------------------------------------------------------------------
  // Unsigned decimal numbers
  // ---------------------------------------------------------------------

  /** Number of decimal digits that start `s`. */
  function DigitPrefix(s: string): (n: nat)
    ensures n <= |s|
    ensures IsDigits(s[..n])
    ensures n < |s| ==> !IsDigit(s[n])
  {
    if s != [] && IsDigit(s[0]) then
      var n := 1 + DigitPrefix(s[1..]);
      assert s[..n] == [s[0]] + s[1..][..n - 1];
      n
    else
      0
  }

  function DigitsValue(ds: string): nat
    requires IsDigits(ds)
  {
    if ds == [] then 0
    else
      assert IsDigit(ds[|ds| - 1]);
      10 * DigitsValue(ds[..|ds| - 1]) + (ds[|ds| - 1] as int - '0' as int)
  }

  function DigitChar(d: nat): (c: char)
    requires d < 10
    ensures IsDigit(c) && c as int - '0' as int == d
  {
    ('0' as int + d) as char
  }

  /** The decimal text `operator<<` writes for an unsigned integer; reading
      its digits back yields the number again. */
  function NatToString(n: nat): (s: string)
    ensures s != []
  {
    if n < 10 then [DigitChar(n)] else NatToString(n / 10) + [DigitChar(n % 10)]
  }

  lemma {:induction false} NatToStringDigits(n: nat)
    ensures IsDigits(NatToString(n))
    ensures DigitsValue(NatToString(n)) == n
  {
    if n >= 10 {
      NatToStringDigits(n / 10);
      var s := NatToString(n);
      assert s[..|s| - 1] == NatToString(n / 10);
    }
  }

  /** Result of one `operator>>` into an unsigned integer. */
  datatype Extracted =
    | Got(value: nat, rest: seq<string>)  // digits read; the stream continues with `rest`
    | Mismatch                            // no digit: the target is set to 0 and the stream fails
    | Exhausted                           // nothing left: the target is untouched and the stream fails

  /** `operator>>` into an unsigned integer, over the remaining tokens. */
  function ReadNat(ts: seq<string>): (r: Extracted)
    ensures r.Exhausted? <==> ts == []
    ensures r.Mismatch? <==> ts != [] && (ts[0] == [] || !IsDigit(ts[0][0]))
    ensures r.Got? ==> |r.rest| <= |ts|
    ensures r.Got? && IsDigits(ts[0]) ==> r == Got(DigitsValue(ts[0]), ts[1..])
  {
    if ts == [] then Exhausted
    else
      var n := DigitPrefix(ts[0]);
      if n == 0 then Mismatch
      else
        assert n == |ts[0]| ==> ts[0][..n] == ts[0];
        Got(DigitsValue(ts[0][..n]), if n == |ts[0]| then ts[1..] else [ts[0][n..]] + ts[1..])
  }

  /** Reading back the decimal text of `n`, glued to a suffix that does not
      start with a digit, yields `n` and leaves the suffix as the next token. */
  lemma {:induction false} ReadNatOfText(n: nat, sfx: string, rest: seq<string>)
    requires sfx == [] || !IsDigit(sfx[0])
    ensures ReadNat([NatToString(n) + sfx] + rest)
         == Got(n, if sfx == [] then rest else [sfx] + rest)
  {
    var ds := NatToString(n);
    NatToStringDigits(n);
    var t := ds + sfx;
    var k := DigitPrefix(t);
    assert t[..|ds|] == ds;
    assert t[..k] == ds;
    assert t[k..] == sfx;
    assert ([t] + rest)[1..] == rest;
  }
}
