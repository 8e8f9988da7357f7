/**
 What a configuration text means, line by line and without the parser's tree: which sections are open at a line, which
 line gives a key its value, in which order items come, and which texts are accepted. CConfig::parseString of
 source/util/util_config.cpp is proved to agree with this for every text.
 */
module ConfigText {
  import opened Bytes
  import opened Strings
  import opened Configs

  // ------------------------------------------------------------------- single lines

  /** The line says `key = value`: the first '=' separates them, and without one the value is empty. */
  ghost predicate SaysValue(s: Text, key: Text, value: Text) {
    || (exists left: Text, right: Text :: s == left + [EQUALS] + right && Free(left, [EQUALS])
                                          && key == Trim(left) && value == Trim(right))
    || (Free(s, [EQUALS]) && key == s && value == [])
  }

  /** What a line says, by its shape after trimming; a tag that is none of these shapes is an error. */
  lemma LineMeans(raw: Text, key: Text, value: Text)
    ensures var s, line := Trim(raw), Classify(raw);
            && (line == Blank <==> s == [] || s[0] == HASH)
            && (line == Open(key) <==>
                  s == [LESS] + key + [GREATER] && Free(key, [GREATER]) && (key == [] || key[0] != SLASH))
            && (line == Close(key) <==> s == [LESS, SLASH] + key + [GREATER] && Free(key, [GREATER]))
            && (line == KeyValue(key, value) <==>
                  s != [] && s[0] != HASH && s[0] != LESS && SaysValue(s, key, value))
            && (line == Malformed ==> s != [] && s[0] == LESS)
  {
    var s := Trim(raw);
    TagMeans(s, key);
    if s != [] && s[0] != HASH && s[0] != LESS {
      ValueMeans(s, key, value);
    }
  }

  lemma TagMeans(s: Text, key: Text)
    ensures s == [LESS] + key + [GREATER] && Free(key, [GREATER]) <==>
              |s| > 1 && s[0] == LESS && FirstOf(s, [GREATER]) == |s| - 1 && key == s[1..|s| - 1]
    ensures s == [LESS, SLASH] + key + [GREATER] && Free(key, [GREATER]) <==>
              |s| > 2 && s[0] == LESS && s[1] == SLASH && FirstOf(s, [GREATER]) == |s| - 1 && key == s[2..|s| - 1]
  {
    if s == [LESS] + key + [GREATER] && Free(key, [GREATER]) {
      FirstOfUnique(s, [GREATER], |s| - 1);
    }
    if s == [LESS, SLASH] + key + [GREATER] && Free(key, [GREATER]) {
      FirstOfUnique(s, [GREATER], |s| - 1);
    }
  }

  lemma ValueMeans(s: Text, key: Text, value: Text)
    ensures var pos := FirstOf(s, [EQUALS]);
            SaysValue(s, key, value) <==>
              if pos < |s| then key == Trim(s[..pos]) && value == Trim(s[pos + 1..]) else key == s && value == []
  {
    var pos := FirstOf(s, [EQUALS]);
    if pos < |s| {
      assert s == s[..pos] + [EQUALS] + s[pos + 1..] && Free(s[..pos], [EQUALS]);
    }
    forall left: Text, right: Text | s == left + [EQUALS] + right && Free(left, [EQUALS])
      ensures pos == |left| && s[..pos] == left && s[pos + 1..] == right
    {
      FirstOfUnique(s, [EQUALS], |left|);
    }
  }

  // ------------------------------------------------------------ sections and lines

  /** The sections open after a line. */
  function Next(path: seq<Text>, line: Line): seq<Text> {
    match line
    case Open(key) => path + [key]
    case Close(_) => if path == [] then [] else path[..|path| - 1]
    case _ => path
  }

  /** The sections open after these lines. */
  function PathAfter(lines: seq<Line>): seq<Text> {
    if lines == [] then [] else Next(PathAfter(lines[..|lines| - 1]), lines[|lines| - 1])
  }

  /** Line `i` stands in the section `path`. */
  predicate In(lines: seq<Line>, i: nat, path: seq<Text>) {
    i < |lines| && PathAfter(lines[..i]) == path
  }

  /** Line `i` gives `key` a value in the section `path`. */
  predicate Assigns(lines: seq<Line>, i: nat, path: seq<Text>, key: Text) {
    In(lines, i, path) && lines[i].KeyValue? && lines[i].key == key
  }

  predicate Opens(lines: seq<Line>, i: nat, path: seq<Text>, key: Text) {
    In(lines, i, path) && lines[i].Open? && lines[i].key == key
  }

  predicate Mentions(lines: seq<Line>, i: nat, path: seq<Text>, key: Text) {
    Assigns(lines, i, path, key) || Opens(lines, i, path, key)
  }

  ghost predicate MentionedBefore(lines: seq<Line>, n: nat, path: seq<Text>, key: Text) {
    exists i: nat :: i < n && Mentions(lines, i, path, key)
  }

  ghost predicate Assigned(lines: seq<Line>, path: seq<Text>, key: Text) {
    exists i: nat :: Assigns(lines, i, path, key)
  }

  ghost predicate Opened(lines: seq<Line>, path: seq<Text>, key: Text) {
    exists i: nat :: Opens(lines, i, path, key)
  }

  /** Some section was opened under each name of the path, in the section before it. */
  ghost predicate Exists(lines: seq<Line>, path: seq<Text>) {
    path == [] || Opened(lines, path[..|path| - 1], path[|path| - 1])
  }

  /** Line `i` is the last one that assigns `key`. */
  ghost predicate LastAssigns(lines: seq<Line>, i: nat, path: seq<Text>, key: Text) {
    Assigns(lines, i, path, key) && forall j: nat :: i < j ==> !Assigns(lines, j, path, key)
  }

  // --------------------------------------------------------- what a section holds

  /** A section without what is inside its subsections. */
  datatype Facts = Facts(name: Text, items: seq<Text>, keys: map<Text, Text>)

  ghost function FactsAt(c: Config, path: seq<Text>): Option<Facts> {
    var t := Seen(c, path);
    if t.None? then None else Some(Facts(t.value.name, t.value.items, t.value.keys))
  }

  ghost predicate KeysFit(lines: seq<Line>, path: seq<Text>, keys: map<Text, Text>) {
    && (forall k <- keys :: Assigned(lines, path, k))
    && (forall i: nat, k :: Assigns(lines, i, path, k) ==> k in keys)
    && (forall i: nat, k :: LastAssigns(lines, i, path, k) ==> k in keys && keys[k] == lines[i].value)
  }

  /** The items are what was mentioned, each once, in the order of first mention. */
  ghost predicate ItemsFit(lines: seq<Line>, path: seq<Text>, items: seq<Text>) {
    && NoRepeats(items)
    && (forall i: nat, k :: Mentions(lines, i, path, k) ==> k in items)
    && (forall a :: 0 <= a < |items| ==> MentionedBefore(lines, |lines|, path, items[a]))
    && (forall a, b, j: nat :: 0 <= a < b < |items| && Mentions(lines, j, path, items[b]) ==>
          MentionedBefore(lines, j, path, items[a]))
  }

  ghost predicate Fits(lines: seq<Line>, path: seq<Text>, facts: Option<Facts>) {
    && (facts.Some? <==> Exists(lines, path))
    && (facts.Some? && path != [] ==> facts.value.name == path[|path| - 1])
    && (facts.Some? ==> KeysFit(lines, path, facts.value.keys) && ItemsFit(lines, path, facts.value.items))
  }

  /** The tree and the top pointer are what the lines so far say. */
  ghost predicate Described(lines: seq<Line>, cur: Cursor) {
    cur.path == PathAfter(lines) && forall path: seq<Text> :: Fits(lines, path, FactsAt(cur.tree, path))
  }

  // ------------------------------------------------------------- writing to the tree

  lemma {:induction false} FactsPut(c: Config, path: seq<Text>, t: Config, p: seq<Text>)
    requires Seen(c, path).Some? && t.subs == Seen(c, path).value.subs
    ensures FactsAt(Put(c, path, t), p) == if p == path then Some(Facts(t.name, t.items, t.keys)) else FactsAt(c, p)
    decreases |path|
  {
    if path != [] && p != [] && p[0] == path[0] {
      FactsPut(c.subs[path[0]], path[1..], t, p[1..]);
      assert p == [p[0]] + p[1..] && path == [path[0]] + path[1..];
    }
  }

  lemma {:induction false} FactsPutSection(c: Config, path: seq<Text>, key: Text, p: seq<Text>)
    requires Seen(c, path).Some? && key !in Seen(c, path).value.subs
    ensures var top := Seen(c, path).value;
            FactsAt(Put(c, path, WithSection(top, key)), p)
            == if p == path then Some(Facts(top.name, top.items + [key], top.keys))
               else if p == path + [key] then Some(Facts(key, [], map[]))
               else FactsAt(c, p)
    decreases |path|
  {
    if path == [] {
      assert path + [key] == [key];
      if p != [] && p[0] == key {
        assert p == [key] + p[1..];
        assert Seen(WithSection(c, key), p) == Seen(Empty(key), p[1..]);
        assert Seen(c, path) == Some(c) && Seen(c, p).None?;
        assert p[1..] != [] ==> Seen(Empty(key), p[1..]).None?;
      }
    } else if p != [] && p[0] == path[0] {
      FactsPutSection(c.subs[path[0]], path[1..], key, p[1..]);
      assert p == [p[0]] + p[1..] && path == [path[0]] + path[1..];
      assert path + [key] == [path[0]] + (path[1..] + [key]);
    } else {
      assert (path + [key])[0] == path[0];
    }
  }

  lemma {:induction false} NotSeenSnoc(c: Config, path: seq<Text>, key: Text)
    requires Seen(c, path).Some? && key !in Seen(c, path).value.subs
    ensures Seen(c, path + [key]).None?
    decreases |path|
  {
    if path == [] {
      assert path + [key] == [key];
    } else {
      NotSeenSnoc(c.subs[path[0]], path[1..], key);
      assert (path + [key])[0] == path[0] && (path + [key])[1..] == path[1..] + [key];
    }
  }

  /** A subsection is there exactly when the tree has it one step down. */
  lemma SubsectionSeen(c: Config, path: seq<Text>, key: Text)
    requires Seen(c, path).Some?
    ensures key in Seen(c, path).value.subs <==> FactsAt(c, path + [key]).Some?
  {
    if key in Seen(c, path).value.subs {
      SeenSnoc(c, path, Seen(c, path).value, key);
    } else {
      NotSeenSnoc(c, path, key);
    }
  }

  // ------------------------------------------------------------------ one more line

  /** Earlier lines say what they said; the new one speaks in the section that was open. */
  lemma OneMoreLine(lines: seq<Line>, line: Line, i: nat, path: seq<Text>, key: Text)
    ensures var more := lines + [line];
            && (Assigns(more, i, path, key) <==>
                  Assigns(lines, i, path, key)
                  || (i == |lines| && path == PathAfter(lines) && line.KeyValue? && line.key == key))
            && (Opens(more, i, path, key) <==>
                  Opens(lines, i, path, key)
                  || (i == |lines| && path == PathAfter(lines) && line.Open? && line.key == key))
  {
    var more := lines + [line];
    if i <= |lines| {
      assert more[..i] == lines[..i];
      assert lines[..|lines|] == lines;
    }
  }

  lemma PathOfMore(lines: seq<Line>, line: Line)
    ensures PathAfter(lines + [line]) == Next(PathAfter(lines), line)
  {
    assert (lines + [line])[..|lines|] == lines;
  }

  /** A line that does not speak of this section. */
  ghost predicate Silent(lines: seq<Line>, line: Line, path: seq<Text>) {
    path != PathAfter(lines) || !(line.KeyValue? || line.Open?)
  }

  lemma SameMentions(lines: seq<Line>, line: Line, path: seq<Text>)
    requires Silent(lines, line, path)
    ensures forall i: nat, k :: Assigns(lines + [line], i, path, k) <==> Assigns(lines, i, path, k)
    ensures forall i: nat, k :: Mentions(lines + [line], i, path, k) <==> Mentions(lines, i, path, k)
    ensures forall n: nat, k :: n <= |lines| ==>
              (MentionedBefore(lines + [line], n, path, k) <==> MentionedBefore(lines, n, path, k))
  {
    var more := lines + [line];
    forall i: nat, k
      ensures Assigns(more, i, path, k) <==> Assigns(lines, i, path, k)
      ensures Mentions(more, i, path, k) <==> Mentions(lines, i, path, k)
    {
      OneMoreLine(lines, line, i, path, k);
    }
  }

  lemma SilentLine(lines: seq<Line>, line: Line, path: seq<Text>, facts: Facts)
    requires Silent(lines, line, path) && KeysFit(lines, path, facts.keys) && ItemsFit(lines, path, facts.items)
    ensures KeysFit(lines + [line], path, facts.keys) && ItemsFit(lines + [line], path, facts.items)
  {
    SameMentions(lines, line, path);
  }

  lemma MentionsOfMore(lines: seq<Line>, line: Line, path: seq<Text>, key: Text)
    requires path == PathAfter(lines) && (line.KeyValue? || line.Open?) && line.key == key
    ensures forall i: nat, k :: Mentions(lines + [line], i, path, k) <==>
              Mentions(lines, i, path, k) || (i == |lines| && k == key)
    ensures forall n: nat, k :: n <= |lines| ==>
              (MentionedBefore(lines + [line], n, path, k) <==> MentionedBefore(lines, n, path, k))
  {
    forall i: nat, k
      ensures Mentions(lines + [line], i, path, k) <==> Mentions(lines, i, path, k) || (i == |lines| && k == key)
    {
      OneMoreLine(lines, line, i, path, k);
    }
  }

  /** A name mentioned again stays where it is. */
  lemma MentionAgain(lines: seq<Line>, line: Line, path: seq<Text>, key: Text, items: seq<Text>)
    requires path == PathAfter(lines) && (line.KeyValue? || line.Open?) && line.key == key
    requires ItemsFit(lines, path, items) && key in items
    ensures ItemsFit(lines + [line], path, items)
  {
    var more := lines + [line];
    MentionsOfMore(lines, line, path, key);
    forall a | 0 <= a < |items| ensures MentionedBefore(more, |more|, path, items[a]) {
      assert MentionedBefore(lines, |lines|, path, items[a]);
      assert MentionedBefore(more, |lines|, path, items[a]);
    }
    forall a, b, j: nat | 0 <= a < b < |items| && Mentions(more, j, path, items[b])
      ensures MentionedBefore(more, j, path, items[a])
    {
      if j == |lines| {
        assert MentionedBefore(lines, |lines|, path, items[a]);
      } else {
        assert Mentions(lines, j, path, items[b]);
        assert MentionedBefore(lines, j, path, items[a]);
      }
    }
  }

  /** A name mentioned for the first time goes to the end. */
  lemma MentionFirst(lines: seq<Line>, line: Line, path: seq<Text>, key: Text, items: seq<Text>)
    requires path == PathAfter(lines) && (line.KeyValue? || line.Open?) && line.key == key
    requires ItemsFit(lines, path, items) && key !in items
    ensures ItemsFit(lines + [line], path, items + [key])
  {
    var more, longer := lines + [line], items + [key];
    MentionsOfMore(lines, line, path, key);
    assert Mentions(more, |lines|, path, key);
    forall a | 0 <= a < |longer| ensures MentionedBefore(more, |more|, path, longer[a]) {
      if a < |items| {
        assert MentionedBefore(lines, |lines|, path, items[a]);
        assert MentionedBefore(more, |lines|, path, items[a]);
      }
    }
    forall a, b, j: nat | 0 <= a < b < |longer| && Mentions(more, j, path, longer[b])
      ensures MentionedBefore(more, j, path, longer[a])
    {
      assert longer[a] == items[a];
      if b == |items| {
        assert !Mentions(lines, j, path, key);
        assert MentionedBefore(lines, |lines|, path, items[a]);
      } else {
        assert j < |lines| && Mentions(lines, j, path, items[b]);
        assert MentionedBefore(lines, j, path, items[a]);
      }
    }
  }

  lemma KeysOfMore(lines: seq<Line>, line: Line, path: seq<Text>, keys: map<Text, Text>)
    requires path == PathAfter(lines) && line.KeyValue? && KeysFit(lines, path, keys)
    ensures KeysFit(lines + [line], path, keys[line.key := line.value])
  {
    var more, key := lines + [line], line.key;
    forall i: nat, k
      ensures Assigns(more, i, path, k) <==> Assigns(lines, i, path, k) || (i == |lines| && k == key)
    {
      OneMoreLine(lines, line, i, path, k);
    }
    assert Assigns(more, |lines|, path, key);
    forall k <- keys ensures Assigned(more, path, k) {
      var i: nat :| Assigns(lines, i, path, k);
      assert Assigns(more, i, path, k);
    }
    forall i: nat, k | LastAssigns(more, i, path, k) ensures keys[key := line.value][k] == more[i].value {
      if k == key {
        assert i >= |lines|;
      } else {
        assert LastAssigns(lines, i, path, k) by {
          forall j: nat | i < j ensures !Assigns(lines, j, path, k) {
            assert !Assigns(more, j, path, k);
          }
        }
      }
    }
  }

  lemma KeysWithoutMore(lines: seq<Line>, line: Line, path: seq<Text>, keys: map<Text, Text>)
    requires !line.KeyValue? && KeysFit(lines, path, keys)
    ensures KeysFit(lines + [line], path, keys)
  {
    forall i: nat, k ensures Assigns(lines + [line], i, path, k) <==> Assigns(lines, i, path, k) {
      OneMoreLine(lines, line, i, path, k);
    }
    forall k <- keys ensures Assigned(lines + [line], path, k) {
      var i: nat :| Assigns(lines, i, path, k);
      assert Assigns(lines + [line], i, path, k);
    }
    forall i: nat, k | LastAssigns(lines + [line], i, path, k) ensures LastAssigns(lines, i, path, k) {
      forall j: nat | i < j ensures !Assigns(lines, j, path, k) {
        assert !Assigns(lines + [line], j, path, k);
      }
    }
  }

  // ---------------------------------------------------------------- which sections exist

  lemma ExistsOfMore(lines: seq<Line>, line: Line, path: seq<Text>)
    ensures Exists(lines + [line], path)
            <==> Exists(lines, path) || (line.Open? && path == PathAfter(lines) + [line.key])
  {
    if path != [] {
      var outer, key := path[..|path| - 1], path[|path| - 1];
      assert path == outer + [key];
      forall i: nat
        ensures Opens(lines + [line], i, outer, key)
                <==> Opens(lines, i, outer, key) || (i == |lines| && outer == PathAfter(lines) && line == Open(key))
      {
        OneMoreLine(lines, line, i, outer, key);
      }
      if line.Open? && path == PathAfter(lines) + [line.key] {
        assert Opens(lines + [line], |lines|, outer, key);
      }
      if Opened(lines, outer, key) {
        var i: nat :| Opens(lines, i, outer, key);
        assert Opens(lines + [line], i, outer, key);
      }
    }
  }

  /** The sections open now, and those around them, were opened. */
  lemma {:induction false} OpenSectionsExist(lines: seq<Line>, n: nat)
    requires n <= |PathAfter(lines)|
    ensures Exists(lines, PathAfter(lines)[..n])
    decreases |lines|
  {
    if lines != [] {
      var before, line := lines[..|lines| - 1], lines[|lines| - 1];
      assert lines == before + [line];
      ExistsOfMore(before, line, PathAfter(lines)[..n]);
      var was := PathAfter(before);
      if n <= |was| {
        OpenSectionsExist(before, n);
        assert PathAfter(lines)[..n] == was[..n];
      } else {
        assert PathAfter(lines)[..n] == was + [line.key];
      }
    }
  }

  lemma {:induction false} ExistsLater(lines: seq<Line>, i: nat, path: seq<Text>)
    requires i <= |lines| && Exists(lines[..i], path)
    ensures Exists(lines, path)
    decreases |lines| - i
  {
    if i == |lines| {
      assert lines[..i] == lines;
    } else {
      assert lines[..i + 1] == lines[..i] + [lines[i]];
      ExistsOfMore(lines[..i], lines[i], path);
      ExistsLater(lines, i + 1, path);
    }
  }

  lemma SpokenOfExists(lines: seq<Line>, i: nat, path: seq<Text>)
    requires In(lines, i, path)
    ensures Exists(lines, path)
  {
    OpenSectionsExist(lines[..i], |path|);
    assert path[..|path|] == path;
    ExistsLater(lines, i, path);
  }

  lemma NotSpokenOf(lines: seq<Line>, i: nat, path: seq<Text>)
    requires !Exists(lines, path)
    ensures !In(lines, i, path)
  {
    if In(lines, i, path) {
      SpokenOfExists(lines, i, path);
    }
  }

  lemma NothingSaid(lines: seq<Line>, path: seq<Text>)
    requires forall i: nat, k :: !Assigns(lines, i, path, k) && !Opens(lines, i, path, k)
    ensures KeysFit(lines, path, map[]) && ItemsFit(lines, path, [])
  {
  }

  /** A section opened for the first time is empty. */
  lemma FreshSection(lines: seq<Line>, line: Line)
    requires line.Open? && !Exists(lines, PathAfter(lines) + [line.key])
    ensures var path := PathAfter(lines) + [line.key];
            KeysFit(lines + [line], path, map[]) && ItemsFit(lines + [line], path, [])
  {
    var path := PathAfter(lines) + [line.key];
    assert |path| != |PathAfter(lines)|;
    forall i: nat, k ensures !Assigns(lines + [line], i, path, k) && !Opens(lines + [line], i, path, k) {
      OneMoreLine(lines, line, i, path, k);
      NotSpokenOf(lines, i, path);
    }
    NothingSaid(lines + [line], path);
  }

  // ------------------------------------------------------------------------- one step

  /** Which lines are accepted after which. */
  ghost predicate Acceptable(before: seq<Line>, line: Line) {
    var path := PathAfter(before);
    match line
    case Blank => true
    case Malformed => false
    case Close(key) => path != [] && path[|path| - 1] == key
    case Open(key) => !Assigned(before, path, key)
    case KeyValue(key, _) => !Opened(before, path, key)
  }

  /** What parseString throws at a line it does not accept. */
  function ErrorOf(line: Line): Error
    requires !line.Blank?
  {
    match line
    case Malformed => SyntaxError
    case Close(_) => KeyMismatch
    case Open(_) => OverrideKey
    case KeyValue(_, _) => OverrideSection
  }

  lemma FitsSilently(lines: seq<Line>, line: Line, path: seq<Text>, facts: Option<Facts>)
    requires Fits(lines, path, facts) && Silent(lines, line, path)
    requires Exists(lines + [line], path) <==> Exists(lines, path)
    ensures Fits(lines + [line], path, facts)
  {
    if facts.Some? {
      SilentLine(lines, line, path, facts.value);
    }
  }

  lemma PlainStep(lines: seq<Line>, cur: Cursor, line: Line, path: seq<Text>)
    requires Described(lines, cur) && !line.KeyValue? && !line.Open? && path == Next(cur.path, line)
    ensures Described(lines + [line], cur.(path := path))
  {
    PathOfMore(lines, line);
    forall p: seq<Text> ensures Fits(lines + [line], p, FactsAt(cur.tree, p)) {
      ExistsOfMore(lines, line, p);
      FitsSilently(lines, line, p, FactsAt(cur.tree, p));
    }
  }

  lemma ItemMentioned(lines: seq<Line>, path: seq<Text>, items: seq<Text>, key: Text)
    requires ItemsFit(lines, path, items)
    ensures key in items <==> Assigned(lines, path, key) || Opened(lines, path, key)
  {
    if key in items {
      var a :| 0 <= a < |items| && items[a] == key;
      assert MentionedBefore(lines, |lines|, path, items[a]);
      var i: nat :| i < |lines| && Mentions(lines, i, path, key);
    }
    if Assigned(lines, path, key) {
      var i: nat :| Assigns(lines, i, path, key);
      assert Mentions(lines, i, path, key);
    }
    if Opened(lines, path, key) {
      var i: nat :| Opens(lines, i, path, key);
      assert Mentions(lines, i, path, key);
    }
  }

  /** The section that is open, and what it holds. */
  lemma TopFacts(lines: seq<Line>, cur: Cursor, key: Text)
    requires Described(lines, cur)
    ensures Seen(cur.tree, cur.path).Some?
    ensures var top := Seen(cur.tree, cur.path).value;
            && Fits(lines, cur.path, Some(Facts(top.name, top.items, top.keys)))
            && (key in top.keys <==> Assigned(lines, cur.path, key))
            && (key in top.subs <==> Opened(lines, cur.path, key))
            && (key in top.items <==> Assigned(lines, cur.path, key) || Opened(lines, cur.path, key))
  {
    OpenSectionsExist(lines, |cur.path|);
    assert cur.path[..|cur.path|] == cur.path;
    assert Fits(lines, cur.path, FactsAt(cur.tree, cur.path));
    var inner := cur.path + [key];
    SubsectionSeen(cur.tree, cur.path, key);
    assert Fits(lines, inner, FactsAt(cur.tree, inner));
    assert inner[..|inner| - 1] == cur.path;
    ItemMentioned(lines, cur.path, Seen(cur.tree, cur.path).value.items, key);
  }

  lemma ValueStep(lines: seq<Line>, cur: Cursor, line: Line)
    requires Described(lines, cur) && line.KeyValue? && Acceptable(lines, line)
    ensures Seen(cur.tree, cur.path).Some?
    ensures var t := WithValue(Seen(cur.tree, cur.path).value, line.key, line.value);
            Described(lines + [line], cur.(tree := Put(cur.tree, cur.path, t)))
  {
    TopFacts(lines, cur, line.key);
    PathOfMore(lines, line);
    var top := Seen(cur.tree, cur.path).value;
    var t := WithValue(top, line.key, line.value);
    forall p: seq<Text> ensures Fits(lines + [line], p, FactsAt(Put(cur.tree, cur.path, t), p)) {
      ExistsOfMore(lines, line, p);
      FactsPut(cur.tree, cur.path, t, p);
      assert Fits(lines, p, FactsAt(cur.tree, p));
      if p == cur.path {
        KeysOfMore(lines, line, p, top.keys);
        if line.key in top.keys {
          MentionAgain(lines, line, p, line.key, top.items);
        } else {
          MentionFirst(lines, line, p, line.key, top.items);
        }
      } else {
        FitsSilently(lines, line, p, FactsAt(cur.tree, p));
      }
    }
  }

  lemma ReopenStep(lines: seq<Line>, cur: Cursor, line: Line)
    requires Described(lines, cur) && line.Open? && Opened(lines, cur.path, line.key)
    ensures Described(lines + [line], cur.(path := cur.path + [line.key]))
  {
    TopFacts(lines, cur, line.key);
    PathOfMore(lines, line);
    var top, inner := Seen(cur.tree, cur.path).value, cur.path + [line.key];
    assert inner[..|inner| - 1] == cur.path && Exists(lines, inner);
    forall p: seq<Text> ensures Fits(lines + [line], p, FactsAt(cur.tree, p)) {
      ExistsOfMore(lines, line, p);
      assert Fits(lines, p, FactsAt(cur.tree, p));
      if p == cur.path {
        KeysWithoutMore(lines, line, p, top.keys);
        MentionAgain(lines, line, p, line.key, top.items);
      } else {
        FitsSilently(lines, line, p, FactsAt(cur.tree, p));
      }
    }
  }

  lemma OpenStep(lines: seq<Line>, cur: Cursor, line: Line)
    requires Described(lines, cur) && line.Open? && Acceptable(lines, line) && !Opened(lines, cur.path, line.key)
    ensures Seen(cur.tree, cur.path).Some?
    ensures var t := WithSection(Seen(cur.tree, cur.path).value, line.key);
            Described(lines + [line], Cursor(Put(cur.tree, cur.path, t), cur.path + [line.key]))
  {
    TopFacts(lines, cur, line.key);
    PathOfMore(lines, line);
    var top, inner := Seen(cur.tree, cur.path).value, cur.path + [line.key];
    var tree := Put(cur.tree, cur.path, WithSection(top, line.key));
    assert inner[..|inner| - 1] == cur.path && !Exists(lines, inner);
    forall p: seq<Text> ensures Fits(lines + [line], p, FactsAt(tree, p)) {
      ExistsOfMore(lines, line, p);
      FactsPutSection(cur.tree, cur.path, line.key, p);
      assert Fits(lines, p, FactsAt(cur.tree, p));
      if p == cur.path {
        KeysWithoutMore(lines, line, p, top.keys);
        MentionFirst(lines, line, p, line.key, top.items);
      } else if p == inner {
        FreshSection(lines, line);
      } else {
        FitsSilently(lines, line, p, FactsAt(cur.tree, p));
      }
    }
  }

  lemma StepMeans(lines: seq<Line>, cur: Cursor, line: Line)
    requires Described(lines, cur)
    ensures Seen(cur.tree, cur.path).Some?
    ensures var r := PointerStep(cur, line);
            && (r.Success? <==> Acceptable(lines, line))
            && (r.Success? ==> Described(lines + [line], r.value))
            && (r.Failure? ==> !line.Blank? && r.error == ErrorOf(line))
  {
    TopFacts(lines, cur, if line.Blank? || line.Malformed? then [] else line.key);
    match line
    case Blank => PlainStep(lines, cur, line, cur.path);
    case Malformed =>
    case Close(_) =>
      if cur.path != [] {
        PlainStep(lines, cur, line, cur.path[..|cur.path| - 1]);
      }
    case Open(key) =>
      if Opened(lines, cur.path, key) {
        ReopenStep(lines, cur, line);
      } else if Acceptable(lines, line) {
        OpenStep(lines, cur, line);
      }
    case KeyValue(_, _) =>
      if Acceptable(lines, line) {
        ValueStep(lines, cur, line);
      }
  }

  // ---------------------------------------------------------------------- whole texts

  ghost function Classified(pieces: seq<Text>): (lines: seq<Line>)
    ensures |lines| == |pieces| && forall i :: 0 <= i < |lines| ==> lines[i] == Classify(pieces[i])
  {
    seq(|pieces|, i requires 0 <= i < |pieces| => Classify(pieces[i]))
  }

  /** The lines of a text. */
  ghost function LinesOf(text: Text): seq<Line> {
    Classified(Split(text, NEWLINES, true))
  }

  /** Line `i` is the first one that is not accepted. */
  ghost predicate FirstBad(lines: seq<Line>, from: nat, i: nat) {
    && from <= i < |lines| && !Acceptable(lines[..i], lines[i])
    && forall j :: from <= j < i ==> Acceptable(lines[..j], lines[j])
  }

  ghost predicate AllAcceptable(lines: seq<Line>, from: nat) {
    forall i :: from <= i < |lines| ==> Acceptable(lines[..i], lines[i])
  }

  /** The outcome of reading `lines`, of which the first `from` are done. */
  ghost predicate Agrees(lines: seq<Line>, from: nat, r: Result<Cursor>) {
    match r
    case Success(cur) => AllAcceptable(lines, from) && Described(lines, cur)
    case Failure(error) => exists i: nat :: FirstBad(lines, from, i) && !lines[i].Blank? && error == ErrorOf(lines[i])
  }

  lemma AgreesEarlier(lines: seq<Line>, from: nat, r: Result<Cursor>)
    requires from < |lines| && Acceptable(lines[..from], lines[from]) && Agrees(lines, from + 1, r)
    ensures Agrees(lines, from, r)
  {
    if r.Failure? {
      var i: nat :| FirstBad(lines, from + 1, i) && !lines[i].Blank? && r.error == ErrorOf(lines[i]);
      assert FirstBad(lines, from, i);
    }
  }

  lemma FailsNow(lines: seq<Line>, from: nat, error: Error)
    requires from < |lines| && !Acceptable(lines[..from], lines[from])
    requires !lines[from].Blank? && error == ErrorOf(lines[from])
    ensures Agrees(lines, from, Failure(error))
  {
    assert FirstBad(lines, from, from);
  }

  lemma FirstClassified(done: seq<Line>, pieces: seq<Text>)
    requires pieces != []
    ensures var all := done + Classified(pieces);
            && all == done + [Classify(pieces[0])] + Classified(pieces[1..])
            && |done| < |all| && all[|done|] == Classify(pieces[0]) && all[..|done|] == done
  {
  }

  lemma {:induction false} RunMeans(done: seq<Line>, cur: Cursor, pieces: seq<Text>)
    requires Described(done, cur)
    ensures Seen(cur.tree, cur.path).Some? && Agrees(done + Classified(pieces), |done|, PointerRun(cur, pieces))
    decreases |pieces|, 1
  {
    TopFacts(done, cur, []);
    if pieces == [] {
      assert done + Classified(pieces) == done;
    } else {
      StepMeans(done, cur, Classify(pieces[0]));
      RestMeans(done, cur, pieces, PointerStep(cur, Classify(pieces[0])));
    }
  }

  lemma {:induction false} RestMeans(done: seq<Line>, cur: Cursor, pieces: seq<Text>, r: Result<Cursor>)
    requires pieces != [] && Seen(cur.tree, cur.path).Some? && r == PointerStep(cur, Classify(pieces[0]))
    requires r.Success? <==> Acceptable(done, Classify(pieces[0]))
    requires r.Success? ==> Described(done + [Classify(pieces[0])], r.value)
    requires r.Failure? ==> !Classify(pieces[0]).Blank? && r.error == ErrorOf(Classify(pieces[0]))
    ensures Agrees(done + Classified(pieces), |done|, PointerRun(cur, pieces))
    decreases |pieces|, 0
  {
    var all := done + Classified(pieces);
    FirstClassified(done, pieces);
    if r.Success? {
      assert Agrees(all, |done| + 1, PointerRun(r.value, pieces[1..])) by {
        RunMeans(done + [Classify(pieces[0])], r.value, pieces[1..]);
      }
      AgreesEarlier(all, |done|, PointerRun(r.value, pieces[1..]));
    } else {
      FailsNow(all, |done|, r.error);
    }
  }

  lemma NothingDescribed()
    ensures Described([], Cursor(Empty([]), []))
  {
    forall p: seq<Text> ensures Fits([], p, FactsAt(Empty([]), p)) {
      NothingSaid([], p);
    }
  }

  /**
   What a text means. It is accepted if and only if every line is acceptable after the ones before it, and otherwise the
   error is that of the first line that is not. The tree then has exactly the sections that were opened; in each of
   them a key is there if and only if some line assigns it, with the value of the last such line, and the items are
   the names mentioned, in the order of first mention.
   */
  lemma TextMeans(text: Text)
    ensures var lines, r := LinesOf(text), Parse(text, Empty([]));
            && (r.Success? <==> AllAcceptable(lines, 0))
            && (r.Success? ==> forall path: seq<Text> :: Fits(lines, path, FactsAt(r.value, path)))
            && (r.Failure? ==>
                  exists i: nat :: FirstBad(lines, 0, i) && !lines[i].Blank? && r.error == ErrorOf(lines[i]))
  {
    var pieces := Split(text, NEWLINES, true);
    ParseFollowsPointers(text, Empty([]));
    NothingDescribed();
    RunMeans([], Cursor(Empty([]), []), pieces);
    assert [] + Classified(pieces) == LinesOf(text);
  }

  // ---------------------------------------------------------------------- printed form

  lemma {:induction false} IndentIsTwoSpaces(n: nat)
    ensures |Tab(n)| == 2 * n
  {
    if n > 0 {
      IndentIsTwoSpaces(n - 1);
    }
  }

  /** toString, on one key and one section holding one key: "a = 1\n<s>\n  b = 2\n</s>\n". */
  lemma PrintedForm()
    ensures var a, b, s: Text := [97], [98], [115];
            var inner := Config(s, [b], map[b := [50]], map[]);
            Print(Config([], [a, s], map[a := [49]], map[s := inner]), 0)
            == [97, 32, 61, 32, 49, 10]
               + ([60, 115, 62, 10] + ([32, 32, 98, 32, 61, 32, 50, 10] + [60, 47, 115, 62, 10]))
  {
    var a, b, s: Text := [97], [98], [115];
    var inner := Config(s, [b], map[b := [50]], map[]);
    var c := Config([], [a, s], map[a := [49]], map[s := inner]);
    assert Lines(inner, 1, 1) == [] && Tab(0) == [] && Tab(1) == [32, 32] + Tab(0);
    assert Lines(inner, 0, 1) == [KeyLine(1, b, [50])] + [];
    assert Lines(c, 2, 0) == [];
    assert Lines(c, 1, 0) == [OpenLine(0, s)] + Lines(inner, 0, 1) + [CloseLine(0, s)] + [];
    assert Lines(c, 0, 0) == [KeyLine(0, a, [49])] + Lines(c, 1, 0);
    var lines := [KeyLine(0, a, [49]), OpenLine(0, s), KeyLine(1, b, [50]), CloseLine(0, s)];
    assert Lines(c, 0, 0) == lines;
    var three, two, one := lines[1..], lines[2..], lines[3..];
    assert three[1..] == two && two[1..] == one && |one| == 1;
    assert Unlines(one[1..]) == [] && Unlines(one) == (lines[3] + [NL]) + Unlines(one[1..]);
    assert Unlines(two) == (lines[2] + [NL]) + Unlines(one);
    assert Unlines(three) == (lines[1] + [NL]) + Unlines(two);
    assert Unlines(lines) == (lines[0] + [NL]) + Unlines(three);
    assert lines[0] + [NL] == [97, 32, 61, 32, 49, 10] && lines[1] + [NL] == [60, 115, 62, 10];
    assert lines[2] + [NL] == [32, 32, 98, 32, 61, 32, 50, 10] && lines[3] + [NL] == [60, 47, 115, 62, 10];
  }
}
