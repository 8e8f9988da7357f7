/** Splitting and trimming of source/util/util_string.cpp, over byte strings. */
module Strings {
  import opened Bytes

  // -------------------------------------------------------------- searching

  ghost predicate IsFirstOf(s: Text, sep: Text, at: nat) {
    at <= |s| && (at < |s| ==> s[at] in sep) && forall i :: 0 <= i < at ==> s[i] !in sep
  }

  /** find_first_of: the first position of a byte of `sep`, or the length. */
  ghost function FirstOf(s: Text, sep: Text): (at: nat)
    ensures IsFirstOf(s, sep, at)
  {
    FirstOfExists(s, sep);
    var at :| IsFirstOf(s, sep, at);
    at
  }

  lemma FirstOfExists(s: Text, sep: Text)
    ensures exists at :: IsFirstOf(s, sep, at)
  {
    var at := 0;
    while at < |s| && s[at] !in sep
      invariant 0 <= at <= |s| && forall i :: 0 <= i < at ==> s[i] !in sep
    {
      at := at + 1;
    }
    assert IsFirstOf(s, sep, at);
  }

  lemma FirstOfUnique(s: Text, sep: Text, at: nat)
    requires IsFirstOf(s, sep, at)
    ensures FirstOf(s, sep) == at
  {
  }

  method FindFirstOf(s: Text, sep: Text) returns (at: nat)
    ensures at == FirstOf(s, sep)
  {
    at := 0;
    while at < |s| && s[at] !in sep
      invariant 0 <= at <= |s| && forall i :: 0 <= i < at ==> s[i] !in sep
    {
      at := at + 1;
    }
    FirstOfUnique(s, sep, at);
  }

  ghost predicate Free(s: Text, sep: Text) {
    forall i :: 0 <= i < |s| ==> s[i] !in sep
  }

  // --------------------------------------------------------------- splitting

  /** splitString: the pieces between separator bytes; with `strip`, without the empty ones. */
  ghost function Split(s: Text, sep: Text, strip: bool): seq<Text>
    decreases |s|
  {
    var q := FirstOf(s, sep);
    if q == |s| then (if strip && s == [] then [] else [s])
    else if q == 0 then (if strip then [] else [[]]) + Split(s[1..], sep, strip)
    else [s[..q]] + Split(s[q + 1..], sep, strip)
  }

  method SplitString(s: Text, sep: Text, strip: bool) returns (r: seq<Text>)
    ensures r == Split(s, sep, strip)
  {
    r := [];
    var rest := s;
    while true
      invariant r + Split(rest, sep, strip) == Split(s, sep, strip)
      decreases |rest|
    {
      var q := FindFirstOf(rest, sep);
      if q == |rest| {
        if !strip || rest != [] {
          r := r + [rest];
        }
        return;
      }
      ghost var later := Split(rest[q + 1..], sep, strip);
      var piece: seq<Text> := if q > 0 then [rest[..q]] else if strip then [] else [[]];
      assert Split(rest, sep, strip) == piece + later;
      ConcatAssociates(r, piece, later);
      r := r + piece;
      rest := rest[q + 1..];
    }
  }

  /** A piece up to a separator is split off whole. */
  lemma SplitPiece(piece: Text, c: Byte, more: Text, sep: Text)
    requires Free(piece, sep) && c in sep
    ensures Split(piece + [c] + more, sep, true) == (if piece == [] then [] else [piece]) + Split(more, sep, true)
  {
    var s := piece + [c] + more;
    assert IsFirstOf(s, sep, |piece|);
    FirstOfUnique(s, sep, |piece|);
    assert s[..|piece|] == piece && s[|piece| + 1..] == more;
  }

  lemma SplitLast(piece: Text, sep: Text)
    requires Free(piece, sep)
    ensures Split(piece, sep, true) == if piece == [] then [] else [piece]
  {
    FirstOfUnique(piece, sep, |piece|);
  }

  /** Without stripping every piece is kept, empty ones included. */
  lemma SplitKeepsEmpty(piece: Text, c: Byte, more: Text, sep: Text)
    requires Free(piece, sep) && c in sep
    ensures Split(piece, sep, false) == [piece]
    ensures Split(piece + [c] + more, sep, false) == [piece] + Split(more, sep, false)
  {
    var s := piece + [c] + more;
    FirstOfUnique(piece, sep, |piece|);
    FirstOfUnique(s, sep, |piece|);
    assert s[..|piece|] == piece && s[|piece| + 1..] == more;
  }

  /** No piece is empty or contains a separator. */
  lemma {:induction false} SplitPiecesFree(s: Text, sep: Text)
    ensures forall i :: 0 <= i < |Split(s, sep, true)| ==>
              Free(Split(s, sep, true)[i], sep) && Split(s, sep, true)[i] != []
    decreases |s|
  {
    var q := FirstOf(s, sep);
    if q < |s| {
      SplitPiecesFree(s[q + 1..], sep);
      assert q > 0 ==> Free(s[..q], sep);
    }
  }

  /** The text without its separator bytes. */
  function Kept(s: Text, sep: Text): Text {
    if s == [] then [] else (if s[0] in sep then [] else [s[0]]) + Kept(s[1..], sep)
  }

  lemma {:induction false} KeptFree(piece: Text, more: Text, sep: Text)
    requires Free(piece, sep)
    ensures Kept(piece + more, sep) == piece + Kept(more, sep)
  {
    if piece == [] {
      assert piece + more == more;
    } else {
      KeptFree(piece[1..], more, sep);
      assert (piece + more)[1..] == piece[1..] + more;
    }
  }

  /** What the text before a separator contributes. */
  function Pieces(piece: Text, strip: bool): (r: seq<Text>)
    ensures Flatten(r) == piece
  {
    FlattenSnoc([], piece);
    assert [] + [piece] == [piece];
    if piece == [] && strip then [] else [piece]
  }

  lemma SplitNext(s: Text, sep: Text, strip: bool)
    ensures var q := FirstOf(s, sep);
            Split(s, sep, strip) == Pieces(s[..q], strip) + if q == |s| then [] else Split(s[q + 1..], sep, strip)
  {
    var q := FirstOf(s, sep);
    if q == |s| {
      assert s[..q] == s && Pieces(s, strip) + [] == Pieces(s, strip);
    }
  }

  lemma KeptNext(s: Text, sep: Text)
    ensures var q := FirstOf(s, sep); Kept(s, sep) == s[..q] + if q == |s| then [] else Kept(s[q + 1..], sep)
  {
    var q := FirstOf(s, sep);
    assert s == s[..q] + s[q..];
    KeptFree(s[..q], s[q..], sep);
    if q < |s| {
      assert s[q..][1..] == s[q + 1..];
    }
  }

  /** Splitting loses nothing but the separators and keeps the order. */
  lemma {:induction false} SplitKeepsText(s: Text, sep: Text, strip: bool)
    ensures Flatten(Split(s, sep, strip)) == Kept(s, sep)
    decreases |s|
  {
    var q := FirstOf(s, sep);
    var later := if q == |s| then [] else Split(s[q + 1..], sep, strip);
    SplitNext(s, sep, strip);
    KeptNext(s, sep);
    FlattenAppend(Pieces(s[..q], strip), later);
    if q < |s| {
      SplitKeepsText(s[q + 1..], sep, strip);
    }
  }

  // ---------------------------------------------------------------- trimming

  /** isspace. */
  predicate IsSpace(c: Byte) {
    c == 32 || 9 <= c <= 13
  }

  /** The white space of C: space, tab, line feed, vertical tab, form feed and carriage return. */
  lemma SpacesOfC(c: Byte)
    ensures IsSpace(c) <==> c in {32, 9, 10, 11, 12, 13}
  {
  }

  function TrimLeft(s: Text): (r: Text)
    ensures r == [] || !IsSpace(r[0])
  {
    if s == [] || !IsSpace(s[0]) then s else TrimLeft(s[1..])
  }

  function TrimRight(s: Text): (r: Text)
    ensures r <= s && (r == [] || !IsSpace(r[|r| - 1]))
  {
    if s == [] || !IsSpace(s[|s| - 1]) then s else TrimRight(s[..|s| - 1])
  }

  function Trim(s: Text): Text {
    TrimRight(TrimLeft(s))
  }

  /** Neither the first nor the last byte is white space. */
  predicate Trimmed(s: Text) {
    s == [] || (!IsSpace(s[0]) && !IsSpace(s[|s| - 1]))
  }

  method TrimString(s: Text) returns (r: Text)
    ensures r == Trim(s)
  {
    r := s;
    while r != [] && IsSpace(r[0])
      invariant TrimLeft(r) == TrimLeft(s)
      decreases |r|
    {
      r := r[1..];
    }
    while r != [] && IsSpace(r[|r| - 1])
      invariant TrimRight(r) == Trim(s)
      decreases |r|
    {
      r := r[..|r| - 1];
    }
  }

  lemma TrimIsTrimmed(s: Text)
    ensures Trimmed(Trim(s))
  {
    var r := TrimLeft(s);
    assert Trim(s) <= r;
  }

  lemma {:induction false} TrimLeftPart(s: Text)
    ensures |TrimLeft(s)| <= |s| && TrimLeft(s) == s[|s| - |TrimLeft(s)|..]
  {
    if s != [] && IsSpace(s[0]) {
      TrimLeftPart(s[1..]);
    }
  }

  /** Trimming only takes bytes away. */
  lemma TrimKeepsFree(s: Text, sep: Text)
    requires Free(s, sep)
    ensures Free(Trim(s), sep)
  {
    TrimLeftPart(s);
    assert Trim(s) <= TrimLeft(s);
  }

  lemma {:induction false} TrimLeftPad(pad: Text, s: Text)
    requires forall i :: 0 <= i < |pad| ==> IsSpace(pad[i])
    ensures TrimLeft(pad + s) == TrimLeft(s)
  {
    if pad == [] {
      assert pad + s == s;
    } else {
      TrimLeftPad(pad[1..], s);
      assert (pad + s)[1..] == pad[1..] + s;
    }
  }

  lemma {:induction false} TrimRightPad(s: Text, pad: Text)
    requires forall i :: 0 <= i < |pad| ==> IsSpace(pad[i])
    ensures TrimRight(s + pad) == TrimRight(s)
    decreases |pad|
  {
    if pad == [] {
      assert s + pad == s;
    } else {
      var shorter := pad[..|pad| - 1];
      TrimRightPad(s, shorter);
      assert (s + pad)[..|s + pad| - 1] == s + shorter;
    }
  }

  /** White space around a trimmed text is removed, and nothing else. */
  lemma TrimPadded(left: Text, s: Text, right: Text)
    requires Trimmed(s)
    requires forall i :: 0 <= i < |left| ==> IsSpace(left[i])
    requires forall i :: 0 <= i < |right| ==> IsSpace(right[i])
    ensures Trim(left + s + right) == s
  {
    if s == [] {
      var all := left + s + right;
      assert all + [] == all;
      TrimLeftPad(all, []);
    } else {
      assert left + s + right == left + (s + right);
      TrimLeftPad(left, s + right);
      assert TrimLeft(s + right) == s + right;
      TrimRightPad(s, right);
    }
  }
}
