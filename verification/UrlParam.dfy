/** joinURLParam and splitURLParam of source/util/util_string.cpp, over rawurlencode and rawurldecode. */
module UrlParam {
  import opened Bytes
  import opened Encode
  import opened Strings

  datatype Pair = Pair(key: Text, value: Text)

  /** The pairs of a map in some order; std::map visits them by key. */
  ghost predicate Enumerates(pairs: seq<Pair>, m: map<Text, Text>) {
    && (forall i, j :: 0 <= i < j < |pairs| ==> pairs[i].key != pairs[j].key)
    && (forall i :: 0 <= i < |pairs| ==> pairs[i].key in m && m[pairs[i].key] == pairs[i].value)
    && (forall k <- m :: Pair(k, m[k]) in pairs)
  }

  /** Separators the encoder never writes: any number of them between pairs, one between key and value. */
  ghost predicate Separators(sep1: Text, sep2: Text) {
    && sep1 != [] && |sep2| == 1 && sep2[0] !in sep1
    && NeverWritten(sep1) && NeverWritten(sep2)
  }

  /** Bytes that are in no output of the encoder. */
  ghost predicate NeverWritten(sep: Text) {
    forall i :: 0 <= i < |sep| ==> !Unreserved(sep[i]) && sep[i] != PERCENT
  }

  // ------------------------------------------------------------------ joining

  function Item(p: Pair, sep2: Text): Text {
    Encoded(Raw, p.key) + sep2 + Encoded(Raw, p.value)
  }

  /** The loop of joinURLParam: what tells the first pair from the others is that nothing has been written yet. */
  function Written(r: Text, pairs: seq<Pair>, sep1: Text, sep2: Text): Text
    decreases |pairs|
  {
    if pairs == [] then r
    else Written((if r != [] then r + sep1 else r) + Item(pairs[0], sep2), pairs[1..], sep1, sep2)
  }

  /** Items with separators between them. */
  function Join(pairs: seq<Pair>, sep1: Text, sep2: Text): Text {
    if pairs == [] then []
    else if |pairs| == 1 then Item(pairs[0], sep2)
    else Item(pairs[0], sep2) + sep1 + Join(pairs[1..], sep1, sep2)
  }

  // ---------------------------------------------------------------- splitting

  /** One element of splitString2: cut at the first byte of sep2, if there is one. */
  ghost function Cut(piece: Text, sep2: Text): Pair {
    var pos := FirstOf(piece, sep2);
    if pos == |piece| then Pair(piece, []) else Pair(piece[..pos], piece[pos + 1..])
  }

  ghost function Params(pieces: seq<Text>, sep2: Text, m: map<Text, Text>): map<Text, Text>
    decreases |pieces|
  {
    if pieces == [] then m
    else
      var kv := Cut(pieces[0], sep2);
      Params(pieces[1..], sep2, m[Decoded(Raw, kv.key) := Decoded(Raw, kv.value)])
  }

  /** splitURLParam into a map that already holds `m`. */
  ghost function SplitParam(s: Text, sep1: Text, sep2: Text, m: map<Text, Text>): map<Text, Text> {
    Params(Split(s, sep1, true), sep2, m)
  }

  // --------------------------------------------------------------- round trip

  lemma EncodedFree(s: Text, sep: Text)
    requires NeverWritten(sep)
    ensures Free(Encoded(Raw, s), sep)
  {
    forall i | 0 <= i < |Encoded(Raw, s)| ensures Encoded(Raw, s)[i] !in sep {
      RawAlphabet(s, i);
    }
  }

  /** A pair is cut where it was joined, empty keys and values included. */
  lemma CutItem(p: Pair, sep1: Text, sep2: Text)
    requires Separators(sep1, sep2)
    ensures Item(p, sep2) != [] && Free(Item(p, sep2), sep1)
    ensures Cut(Item(p, sep2), sep2) == Pair(Encoded(Raw, p.key), Encoded(Raw, p.value))
  {
    var k, v, item := Encoded(Raw, p.key), Encoded(Raw, p.value), Item(p, sep2);
    EncodedFree(p.key, sep1);
    EncodedFree(p.value, sep1);
    EncodedFree(p.key, sep2);
    assert item[|k|] == sep2[0];
    assert forall i :: 0 <= i < |k| ==> item[i] == k[i];
    assert forall i :: |k| < i < |item| ==> item[i] == v[i - |k| - 1];
    FirstOfUnique(item, sep2, |k|);
    assert item[..|k|] == k && item[|k| + 1..] == v;
  }

  lemma {:induction false} SkipSeparators(sep: Text, more: Text, all: Text)
    requires forall i :: 0 <= i < |sep| ==> sep[i] in all
    ensures Split(sep + more, all, true) == Split(more, all, true)
  {
    if sep == [] {
      assert sep + more == more;
    } else {
      var s := sep + more;
      SkipSeparators(sep[1..], more, all);
      FirstOfUnique(s, all, 0);
      assert s[1..] == sep[1..] + more;
      assert [] + Split(s[1..], all, true) == Split(s[1..], all, true);
    }
  }

  lemma SplitItem(item: Text, sep1: Text, more: Text)
    requires sep1 != [] && item != [] && Free(item, sep1)
    ensures Split(item + sep1 + more, sep1, true) == [item] + Split(more, sep1, true)
  {
    var tail := sep1[1..] + more;
    Regroup(item, sep1, more);
    assert Split(item + [sep1[0]] + tail, sep1, true) == [item] + Split(tail, sep1, true) by {
      SplitPiece(item, sep1[0], tail, sep1);
    }
    SkipSeparators(sep1[1..], more, sep1);
  }

  lemma Regroup(item: Text, sep: Text, more: Text)
    requires sep != []
    ensures item + sep + more == item + [sep[0]] + (sep[1..] + more)
  {
    assert sep == [sep[0]] + sep[1..];
  }

  lemma {:induction false} SplitJoined(pairs: seq<Pair>, sep1: Text, sep2: Text)
    requires Separators(sep1, sep2)
    ensures |Split(Join(pairs, sep1, sep2), sep1, true)| == |pairs|
    ensures forall i :: 0 <= i < |pairs| ==> Split(Join(pairs, sep1, sep2), sep1, true)[i] == Item(pairs[i], sep2)
    decreases |pairs|
  {
    if pairs == [] {
      SplitLast([], sep1);
    } else {
      CutItem(pairs[0], sep1, sep2);
      if |pairs| == 1 {
        SplitLast(Item(pairs[0], sep2), sep1);
      } else {
        SplitJoined(pairs[1..], sep1, sep2);
        SplitItem(Item(pairs[0], sep2), sep1, Join(pairs[1..], sep1, sep2));
      }
    }
  }

  /** The map a sequence of pairs builds on top of `m`, later pairs winning. */
  ghost function Built(pairs: seq<Pair>, m: map<Text, Text>): map<Text, Text>
    decreases |pairs|
  {
    if pairs == [] then m else Built(pairs[1..], m[pairs[0].key := pairs[0].value])
  }

  lemma {:induction false} ParamsBuild(pieces: seq<Text>, pairs: seq<Pair>, sep1: Text, sep2: Text, m: map<Text, Text>)
    requires Separators(sep1, sep2) && |pieces| == |pairs|
    requires forall i :: 0 <= i < |pairs| ==> pieces[i] == Item(pairs[i], sep2)
    ensures Params(pieces, sep2, m) == Built(pairs, m)
    decreases |pairs|
  {
    if pairs != [] {
      CutItem(pairs[0], sep1, sep2);
      RoundTrip(Raw, pairs[0].key);
      RoundTrip(Raw, pairs[0].value);
      ParamsBuild(pieces[1..], pairs[1..], sep1, sep2, m[pairs[0].key := pairs[0].value]);
    }
  }

  lemma {:induction false} BuiltHas(pairs: seq<Pair>, m: map<Text, Text>, key: Text)
    requires forall i, j :: 0 <= i < j < |pairs| ==> pairs[i].key != pairs[j].key
    ensures (key in Built(pairs, m)) <==> (key in m || exists i :: 0 <= i < |pairs| && pairs[i].key == key)
    ensures forall i :: 0 <= i < |pairs| && pairs[i].key == key ==> Built(pairs, m)[key] == pairs[i].value
    ensures key in m && (forall i :: 0 <= i < |pairs| ==> pairs[i].key != key) ==> Built(pairs, m)[key] == m[key]
    decreases |pairs|
  {
    if pairs != [] {
      var rest := pairs[1..];
      BuiltHas(rest, m[pairs[0].key := pairs[0].value], key);
      assert forall i :: 0 < i < |pairs| ==> pairs[i] == rest[i - 1];
    }
  }

  lemma EnumeratedIsBuilt(pairs: seq<Pair>, m: map<Text, Text>)
    requires Enumerates(pairs, m)
    ensures Built(pairs, map[]) == m
  {
    var b := Built(pairs, map[]);
    forall key ensures (key in b) == (key in m) && (key in m ==> b[key] == m[key]) {
      BuiltHas(pairs, map[], key);
      if key in m {
        var i :| 0 <= i < |pairs| && pairs[i] == Pair(key, m[key]);
      }
    }
  }

  lemma {:induction false} WrittenAfter(r: Text, pairs: seq<Pair>, sep1: Text, sep2: Text)
    requires r != []
    ensures Written(r, pairs, sep1, sep2) == r + if pairs == [] then [] else sep1 + Join(pairs, sep1, sep2)
    decreases |pairs|
  {
    if pairs != [] {
      var item, later := Item(pairs[0], sep2), pairs[1..];
      WrittenAfter(r + sep1 + item, later, sep1, sep2);
      if later == [] {
        ConcatAssociates(r, sep1, item);
      } else {
        Reassociate(r, sep1, item, Join(later, sep1, sep2));
      }
    }
  }

  lemma Reassociate(r: Text, sep: Text, item: Text, more: Text)
    ensures r + sep + item + (sep + more) == r + (sep + (item + sep + more))
  {
  }

  /** With a separator after the key every pair writes something, so the loop puts sep1 exactly between pairs. */
  lemma WrittenIsJoin(pairs: seq<Pair>, sep1: Text, sep2: Text)
    requires sep2 != []
    ensures Written([], pairs, sep1, sep2) == Join(pairs, sep1, sep2)
  {
    if pairs != [] {
      var item := Item(pairs[0], sep2);
      assert [] + item == item;
      WrittenAfter(item, pairs[1..], sep1, sep2);
      assert item + (sep1 + Join(pairs[1..], sep1, sep2)) == item + sep1 + Join(pairs[1..], sep1, sep2);
    }
  }

  /**
   Splitting a joined parameter string returns the original map, for every map of byte strings (empty keys and values
   included), whatever the order in which the pairs were joined, and for every pair of separators the encoder never
   writes, the defaults "&" and "=" among them.
   */
  lemma SplitInvertsJoin(pairs: seq<Pair>, m: map<Text, Text>, sep1: Text, sep2: Text)
    requires Enumerates(pairs, m) && Separators(sep1, sep2)
    ensures SplitParam(Written([], pairs, sep1, sep2), sep1, sep2, map[]) == m
  {
    WrittenIsJoin(pairs, sep1, sep2);
    SplitJoined(pairs, sep1, sep2);
    ParamsBuild(Split(Join(pairs, sep1, sep2), sep1, true), pairs, sep1, sep2, map[]);
    EnumeratedIsBuilt(pairs, m);
  }

  /** With the default separators, '&' and '=', in particular. */
  lemma DefaultSplitInvertsJoin(pairs: seq<Pair>, m: map<Text, Text>)
    requires Enumerates(pairs, m)
    ensures SplitParam(Written([], pairs, [38], [61]), [38], [61], map[]) == m
  {
    SplitInvertsJoin(pairs, m, [38], [61]);
  }

  // --------------------------------------------- the separators must be like that

  ghost predicate RoundTripsAt(sep1: Text, sep2: Text, pairs: seq<Pair>, m: map<Text, Text>) {
    Enumerates(pairs, m) ==> SplitParam(Written([], pairs, sep1, sep2), sep1, sep2, map[]) == m
  }

  /** Splitting inverts joining for every map, in whatever order it is joined. */
  ghost predicate RoundTrips(sep1: Text, sep2: Text) {
    forall pairs: seq<Pair>, m: map<Text, Text> :: RoundTripsAt(sep1, sep2, pairs, m)
  }

  ghost function KeyOf(piece: Text, sep2: Text): Text {
    Decoded(Raw, Cut(piece, sep2).key)
  }

  lemma {:induction false} ParamsKeys(pieces: seq<Text>, sep2: Text, m: map<Text, Text>)
    ensures Params(pieces, sep2, m).Keys == m.Keys + set i | 0 <= i < |pieces| :: KeyOf(pieces[i], sep2)
    decreases |pieces|
  {
    if pieces != [] {
      var kv, rest := Cut(pieces[0], sep2), pieces[1..];
      var next := m[Decoded(Raw, kv.key) := Decoded(Raw, kv.value)];
      ParamsKeys(rest, sep2, next);
      assert forall i :: 0 < i < |pieces| ==> pieces[i] == rest[i - 1];
      forall i | 0 <= i < |pieces| ensures KeyOf(pieces[i], sep2) in Params(pieces, sep2, m).Keys {
        if i > 0 {
          assert KeyOf(rest[i - 1], sep2) in set j | 0 <= j < |rest| :: KeyOf(rest[j], sep2);
        }
      }
    }
  }

  lemma {:induction false} ValuesEmpty(pieces: seq<Text>, m: map<Text, Text>)
    requires forall k <- m :: m[k] == []
    ensures forall k <- Params(pieces, [], m) :: Params(pieces, [], m)[k] == []
    decreases |pieces|
  {
    if pieces != [] {
      FirstOfUnique(pieces[0], [], |pieces[0]|);
      ValuesEmpty(pieces[1..], m[Decoded(Raw, pieces[0]) := []]);
    }
  }

  /** Pieces are made of bytes of the text. */
  lemma {:induction false} SplitLetters(s: Text, sep: Text, i: nat, j: nat)
    requires i < |Split(s, sep, true)| && j < |Split(s, sep, true)[i]|
    ensures Split(s, sep, true)[i][j] in s
    decreases |s|
  {
    var q := FirstOf(s, sep);
    if q < |s| {
      var skipped := if q == 0 then 0 else 1;
      assert q == 0 ==> [] + Split(s[1..], sep, true) == Split(s[1..], sep, true);
      if i >= skipped {
        SplitLetters(s[q + 1..], sep, i - skipped, j);
        assert forall c <- s[q + 1..] :: c in s;
      }
    }
  }

  /** The key of a piece is made of bytes of the text that are in neither separator. */
  lemma KeyLetters(s: Text, sep1: Text, sep2: Text, i: nat, j: nat)
    requires i < |Split(s, sep1, true)|
    requires j < |Cut(Split(s, sep1, true)[i], sep2).key|
    ensures var c := Cut(Split(s, sep1, true)[i], sep2).key[j]; c in s && c !in sep1 && c !in sep2
  {
    var piece := Split(s, sep1, true)[i];
    SplitPiecesFree(s, sep1);
    SplitLetters(s, sep1, i, j);
    assert Cut(piece, sep2).key[j] == piece[j];
  }

  lemma {:induction false} DecodedPlain(s: Text)
    requires PERCENT !in s
    ensures Decoded(Raw, s) == s
  {
    if s != [] {
      DecodedPlain(s[1..]);
      assert s == [s[0]] + s[1..];
    }
  }

  lemma EncodedOne(c: Byte)
    ensures Encoded(Raw, [c]) == EncodeByte(Raw, c)
  {
    assert [c][1..] == [] && Encoded(Raw, []) == [];
  }

  lemma WrittenOne(p: Pair, sep1: Text, sep2: Text)
    ensures Written([], [p], sep1, sep2) == Item(p, sep2)
    ensures Enumerates([p], map[p.key := p.value])
  {
    assert [p][1..] == [] && [] + Item(p, sep2) == Item(p, sep2);
    assert p in [p];
  }

  lemma FailsWith(p: Pair, sep1: Text, sep2: Text)
    requires SplitParam(Item(p, sep2), sep1, sep2, map[]) != map[p.key := p.value]
    ensures !RoundTrips(sep1, sep2)
  {
    WrittenOne(p, sep1, sep2);
    assert !RoundTripsAt(sep1, sep2, [p], map[p.key := p.value]);
  }

  /** No key of the split result can be `key`, so the single pair under it does not come back. */
  lemma FailsAt(key: Text, value: Text, sep1: Text, sep2: Text)
    requires var s := Item(Pair(key, value), sep2);
             forall i :: 0 <= i < |Split(s, sep1, true)| ==> KeyOf(Split(s, sep1, true)[i], sep2) != key
    ensures !RoundTrips(sep1, sep2)
  {
    var p := Pair(key, value);
    ParamsKeys(Split(Item(p, sep2), sep1, true), sep2, map[]);
    assert key in map[key := value];
    FailsWith(p, sep1, sep2);
  }

  const A: Text := [97]
  const B: Text := [98]

  lemma LettersEncoded()
    ensures Encoded(Raw, A) == A && Encoded(Raw, B) == B && Encoded(Raw, []) == []
  {
    EncodedOne(97);
    EncodedOne(98);
  }

  lemma EmptyPairSeparatorFails(sep1: Text)
    ensures !RoundTrips(sep1, [])
  {
    var m := map[A := B];
    ValuesEmpty(Split(Item(Pair(A, B), []), sep1, true), map[]);
    assert A in m && m[A] == B;
    FailsWith(Pair(A, B), sep1, []);
  }

  lemma EmptyItemSeparatorFails(sep2: Text)
    requires sep2 != []
    ensures !RoundTrips([], sep2)
  {
    var a, b := Pair(A, []), Pair(B, []);
    var m := map[a.key := a.value, b.key := b.value];
    var s := Written([], [a, b], [], sep2);
    assert Enumerates([a, b], m) by {
      assert [a, b][0] == a && [a, b][1] == b;
    }
    SplitLast(s, []);
    ParamsKeys(Split(s, [], true), sep2, map[]);
    var found := Params(Split(s, [], true), sep2, map[]);
    assert found.Keys <= {KeyOf(s, sep2)};
    assert a.key in m.Keys && b.key in m.Keys;
    assert !RoundTripsAt([], sep2, [a, b], m);
  }

  lemma UnreservedSeparatorFails(c: Byte, sep1: Text, sep2: Text)
    requires Unreserved(c) && (c in sep1 || c in sep2)
    ensures !RoundTrips(sep1, sep2)
  {
    var s := Item(Pair([c], []), sep2);
    assert s == [c] + sep2 by {
      EncodedOne(c);
      KeepsExactlyUnreserved(c);
    }
    forall i | 0 <= i < |Split(s, sep1, true)| ensures KeyOf(Split(s, sep1, true)[i], sep2) != [c] {
      var key := Cut(Split(s, sep1, true)[i], sep2).key;
      if key != [] {
        KeyLetters(s, sep1, sep2, i, 0);
        assert false;
      }
    }
    FailsAt([c], [], sep1, sep2);
  }

  lemma PercentSeparatorFails(sep1: Text, sep2: Text)
    requires PERCENT in sep1 || PERCENT in sep2
    ensures !RoundTrips(sep1, sep2)
  {
    var s := Item(Pair([32], []), sep2);
    assert s == [37, 50, 48] + sep2 by {
      EncodedOne(32);
    }
    forall i | 0 <= i < |Split(s, sep1, true)| ensures KeyOf(Split(s, sep1, true)[i], sep2) != [32] {
      var key := Cut(Split(s, sep1, true)[i], sep2).key;
      forall j | 0 <= j < |key| ensures key[j] != PERCENT && key[j] != 32 {
        KeyLetters(s, sep1, sep2, i, j);
      }
      DecodedPlain(key);
    }
    FailsAt([32], [], sep1, sep2);
  }

  lemma {:induction false} SplitNonEmpty(s: Text, sep: Text, i: nat)
    requires i < |s| && s[i] !in sep
    ensures Split(s, sep, true) != []
    decreases |s|
  {
    var q := FirstOf(s, sep);
    if q == 0 {
      SplitNonEmpty(s[1..], sep, i - 1);
    }
  }

  lemma TailKey(more: Text, sep1: Text, sep2: Text)
    requires PERCENT !in more && 97 !in more && Split(more, sep1, true) != []
    ensures KeyOf(Split(more, sep1, true)[0], sep2) != A
  {
    var key := Cut(Split(more, sep1, true)[0], sep2).key;
    forall j | 0 <= j < |key| ensures key[j] != PERCENT && key[j] != 97 {
      KeyLetters(more, sep1, sep2, 0, j);
    }
    DecodedPlain(key);
  }

  lemma BytesFree(sep1: Text, sep2: Text, q: nat)
    requires NeverWritten(sep1) && NeverWritten(sep2) && q == FirstOf(sep2, sep1) < |sep2|
    ensures Free(A + sep2[..q], sep1) && 98 !in sep1
    ensures PERCENT !in sep2[q + 1..] + B && 97 !in sep2[q + 1..] + B
  {
  }

  /** The second piece of "a" + sep2 + "b" does not have the key "a". */
  lemma OtherKey(sep1: Text, sep2: Text)
    requires NeverWritten(sep1) && NeverWritten(sep2) && FirstOf(sep2, sep1) < |sep2|
    ensures var pieces := Split(A + sep2 + B, sep1, true);
            |pieces| > 1 && KeyOf(pieces[1], sep2) != A
  {
    var q := FirstOf(sep2, sep1);
    var piece, more := A + sep2[..q], sep2[q + 1..] + B;
    assert A + sep2 + B == piece + [sep2[q]] + more;
    BytesFree(sep1, sep2, q);
    assert Split(piece + [sep2[q]] + more, sep1, true) == [piece] + Split(more, sep1, true) by {
      SplitPiece(piece, sep2[q], more, sep1);
    }
    SplitNonEmpty(more, sep1, |more| - 1);
    TailKey(more, sep1, sep2);
  }

  /** A separator byte in both: the pair falls apart, and some piece has another key. */
  lemma SharedSeparatorFails(sep1: Text, sep2: Text)
    requires NeverWritten(sep1) && NeverWritten(sep2) && FirstOf(sep2, sep1) < |sep2|
    ensures !RoundTrips(sep1, sep2)
  {
    LettersEncoded();
    OtherKey(sep1, sep2);
    var pieces := Split(A + sep2 + B, sep1, true);
    ParamsKeys(pieces, sep2, map[]);
    assert KeyOf(pieces[1], sep2) in Params(pieces, sep2, map[]).Keys;
    assert KeyOf(pieces[1], sep2) !in map[A := B].Keys;
    FailsWith(Pair(A, B), sep1, sep2);
  }

  lemma CutLong(sep2: Text)
    requires NeverWritten(sep2) && sep2 != []
    ensures KeyOf(A + sep2, sep2) == A && Decoded(Raw, Cut(A + sep2, sep2).value) == sep2[1..]
  {
    var s := A + sep2;
    FirstOfUnique(s, sep2, 1);
    assert s[..1] == A && s[2..] == sep2[1..];
    DecodedPlain(A);
    DecodedPlain(sep2[1..]);
  }

  lemma ParamsOne(piece: Text, sep2: Text)
    ensures Params([piece], sep2, map[]) == map[KeyOf(piece, sep2) := Decoded(Raw, Cut(piece, sep2).value)]
  {
    assert |[piece][1..]| == 0;
  }

  /** A longer separator between key and value: its tail stays in the value. */
  lemma LongSeparatorFails(sep1: Text, sep2: Text)
    requires NeverWritten(sep1) && NeverWritten(sep2) && Free(sep2, sep1) && |sep2| >= 2
    ensures !RoundTrips(sep1, sep2)
  {
    var s := A + sep2;
    assert Item(Pair(A, []), sep2) == s by {
      LettersEncoded();
    }
    SplitLast(s, sep1);
    ParamsOne(s, sep2);
    CutLong(sep2);
    assert map[A := sep2[1..]][A] != map[A := []][A];
    FailsWith(Pair(A, []), sep1, sep2);
  }

  lemma CleanSeparatorsFail(sep1: Text, sep2: Text)
    requires sep1 != [] && sep2 != [] && NeverWritten(sep1 + sep2) && !Separators(sep1, sep2)
    ensures !RoundTrips(sep1, sep2)
  {
    assert forall i :: 0 <= i < |sep1| ==> (sep1 + sep2)[i] == sep1[i];
    assert forall i :: 0 <= i < |sep2| ==> (sep1 + sep2)[|sep1| + i] == sep2[i];
    if FirstOf(sep2, sep1) < |sep2| {
      SharedSeparatorFails(sep1, sep2);
    } else {
      LongSeparatorFails(sep1, sep2);
    }
  }

  /**
   The condition on the separators is exact: splitting inverts joining for every map if and only if the bytes of both
   separators are never written by the encoder, there is one between pairs, the one between key and value is a single
   byte, and it does not occur between pairs.
   */
  lemma SeparatorsIff(sep1: Text, sep2: Text)
    ensures RoundTrips(sep1, sep2) <==> Separators(sep1, sep2)
  {
    if Separators(sep1, sep2) {
      forall pairs: seq<Pair>, m: map<Text, Text> ensures RoundTripsAt(sep1, sep2, pairs, m) {
        if Enumerates(pairs, m) {
          SplitInvertsJoin(pairs, m, sep1, sep2);
        }
      }
    } else if sep2 == [] {
      EmptyPairSeparatorFails(sep1);
    } else if sep1 == [] {
      EmptyItemSeparatorFails(sep2);
    } else if !NeverWritten(sep1 + sep2) {
      var i :| 0 <= i < |sep1 + sep2| && (Unreserved((sep1 + sep2)[i]) || (sep1 + sep2)[i] == PERCENT);
      var c := (sep1 + sep2)[i];
      assert c in sep1 || c in sep2;
      if c == PERCENT {
        PercentSeparatorFails(sep1, sep2);
      } else {
        UnreservedSeparatorFails(c, sep1, sep2);
      }
    } else {
      CleanSeparatorsFail(sep1, sep2);
    }
  }

  // --------------------------------------------------------------- the loops

  method JoinURLParam(pairs: seq<Pair>, sep1: Text, sep2: Text) returns (r: Text)
    ensures r == Written([], pairs, sep1, sep2)
  {
    r := [];
    var rest := pairs;
    while rest != []
      invariant Written(r, rest, sep1, sep2) == Written([], pairs, sep1, sep2)
      decreases |rest|
    {
      if r != [] {
        r := r + sep1;
      }
      var key := EncodeAll(Raw, rest[0].key);
      var value := EncodeAll(Raw, rest[0].value);
      r := r + (key + sep2 + value);
      rest := rest[1..];
    }
  }

  /** splitURLParam, with splitString2 inside. */
  method SplitURLParam(s: Text, sep1: Text, sep2: Text, m: map<Text, Text>) returns (r: map<Text, Text>)
    ensures r == SplitParam(s, sep1, sep2, m)
  {
    var pieces := SplitString(s, sep1, true);
    r := m;
    while pieces != []
      invariant Params(pieces, sep2, r) == SplitParam(s, sep1, sep2, m)
      decreases |pieces|
    {
      var piece := pieces[0];
      var pos := FindFirstOf(piece, sep2);
      var key := DecodeAll(Raw, piece[..pos]);
      var value := DecodeAll(Raw, if pos == |piece| then [] else piece[pos + 1..]);
      assert pos == |piece| ==> piece[..pos] == piece;
      r := r[key := value];
      pieces := pieces[1..];
    }
  }
}
