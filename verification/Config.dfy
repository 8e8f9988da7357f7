/** CConfig of source/util/util_config.cpp: the configuration tree, its parser and its printer. */
module Configs {
  import opened Bytes
  import opened Strings

  /** m_sNodeName, m_vItem, m_mKeyValue and m_mSubConfig. */
  datatype Config = Config(name: Text, items: seq<Text>, keys: map<Text, Text>, subs: map<Text, Config>)

  datatype Error = SyntaxError | KeyMismatch | OverrideKey | OverrideSection
  datatype Result<T> = Success(value: T) | Failure(error: Error)

  const HASH: Byte := 35
  const SLASH: Byte := 47
  const LESS: Byte := 60
  const EQUALS: Byte := 61
  const GREATER: Byte := 62
  const NEWLINES: Text := [13, 10]
  const NL: Byte := 10

  function Empty(name: Text): Config {
    Config(name, [], map[], map[])
  }

  // ------------------------------------------------------------------- lines

  /** What a line of the text says. */
  datatype Line = Blank | Open(key: Text) | Close(key: Text) | KeyValue(key: Text, value: Text) | Malformed

  ghost function Classify(raw: Text): Line {
    var s := Trim(raw);
    if s == [] || s[0] == HASH then Blank
    else if s[0] == LESS then
      if |s| <= 1 || FirstOf(s, [GREATER]) != |s| - 1 then Malformed
      else if s[1] == SLASH then Close(s[2..|s| - 1])
      else Open(s[1..|s| - 1])
    else
      var pos := FirstOf(s, [EQUALS]);
      if pos < |s| then KeyValue(Trim(s[..pos]), Trim(s[pos + 1..])) else KeyValue(s, [])
  }

  /**
   One line on the stack of open sections, the innermost last. A section taken onto the stack is worked on there and
   goes back into its parent when it is popped; the parent is not looked at in between.
   */
  function Step(stack: seq<Config>, line: Line): (r: Result<seq<Config>>)
    requires stack != []
    ensures r.Success? ==> r.value != []
  {
    var top, below := stack[|stack| - 1], stack[..|stack| - 1];
    match line
    case Blank => Success(stack)
    case Malformed => Failure(SyntaxError)
    case Close(key) => if |stack| <= 1 || top.name != key then Failure(KeyMismatch) else Success(Pop(stack))
    case Open(key) =>
      if key in top.keys then Failure(OverrideKey)
      else if key in top.subs then Success(stack + [top.subs[key]])
      else Success(below + [WithSection(top, key), Empty(key)])
    case KeyValue(key, value) =>
      if key in top.subs then Failure(OverrideSection) else Success(below + [WithValue(top, key, value)])
  }

  /** A new, empty section. */
  function WithSection(c: Config, key: Text): Config {
    c.(items := c.items + [key], subs := c.subs[key := Empty(key)])
  }

  /** A new value; a key that is there already keeps its place. */
  function WithValue(c: Config, key: Text, value: Text): Config {
    c.(items := if key in c.keys then c.items else c.items + [key], keys := c.keys[key := value])
  }

  function Pop(stack: seq<Config>): (r: seq<Config>)
    requires |stack| >= 2
    ensures |r| == |stack| - 1
  {
    var top, parent := stack[|stack| - 1], stack[|stack| - 2];
    stack[..|stack| - 2] + [parent.(subs := parent.subs[top.name := top])]
  }

  ghost function RunLines(stack: seq<Config>, lines: seq<Text>): (r: Result<seq<Config>>)
    requires stack != []
    ensures r.Success? ==> r.value != []
    decreases |lines|
  {
    if lines == [] then Success(stack)
    else
      var next := Step(stack, Classify(lines[0]));
      if next.Failure? then next else RunLines(next.value, lines[1..])
  }

  /** The sections still open at the end of the text go back into their parents. */
  function Collapse(stack: seq<Config>): Config
    requires stack != []
    decreases |stack|
  {
    if |stack| == 1 then stack[0] else Collapse(Pop(stack))
  }

  /** parseString into `root`. */
  ghost function Parse(text: Text, root: Config): Result<Config> {
    var r := RunLines([root], Split(text, NEWLINES, true));
    if r.Failure? then Failure(r.error) else Success(Collapse(r.value))
  }

  // ------------------------------------------------- the stack as pointers into the tree

  /** The configuration that a pointer down `path` from `c` points at. */
  ghost function Seen(c: Config, path: seq<Text>): Option<Config> {
    if path == [] then Some(c)
    else if path[0] in c.subs then Seen(c.subs[path[0]], path[1..])
    else None
  }

  /** Writing `t` through that pointer. */
  ghost function Put(c: Config, path: seq<Text>, t: Config): Config {
    if path == [] then t
    else if path[0] !in c.subs then c
    else c.(subs := c.subs[path[0] := Put(c.subs[path[0]], path[1..], t)])
  }

  function Path(stack: seq<Config>): seq<Text>
    requires stack != []
  {
    seq(|stack| - 1, i requires 0 <= i < |stack| - 1 => stack[i + 1].name)
  }

  lemma {:induction false} SeenSnoc(c: Config, path: seq<Text>, t: Config, key: Text)
    requires Seen(c, path) == Some(t) && key in t.subs
    ensures Seen(c, path + [key]) == Some(t.subs[key])
    decreases |path|
  {
    if path == [] {
      assert path + [key] == [key] && [key][1..] == [];
    } else {
      SeenSnoc(c.subs[path[0]], path[1..], t, key);
      assert (path + [key])[0] == path[0] && (path + [key])[1..] == path[1..] + [key];
    }
  }

  lemma {:induction false} PutSnoc(c: Config, path: seq<Text>, t: Config, key: Text, sub: Config)
    requires Seen(c, path) == Some(t) && key in t.subs
    ensures Put(c, path + [key], sub) == Put(c, path, t.(subs := t.subs[key := sub]))
    decreases |path|
  {
    if path == [] {
      assert path + [key] == [key] && [key][1..] == [];
    } else {
      PutSnoc(c.subs[path[0]], path[1..], t, key, sub);
      assert (path + [key])[0] == path[0] && (path + [key])[1..] == path[1..] + [key];
    }
  }

  lemma PathPop(stack: seq<Config>)
    requires |stack| >= 2
    ensures Path(stack) == Path(Pop(stack)) + [stack[|stack| - 1].name]
  {
    var r := Pop(stack);
    assert forall i :: 0 < i < |r| ==> r[i].name == stack[i].name;
  }

  /** The top of the stack is what the pointer down the open sections sees in the tree. */
  lemma {:induction false} TopIsPointedAt(stack: seq<Config>)
    requires stack != []
    ensures Seen(Collapse(stack), Path(stack)) == Some(stack[|stack| - 1])
    decreases |stack|
  {
    if |stack| > 1 {
      var top, parent := stack[|stack| - 1], Pop(stack)[|stack| - 2];
      TopIsPointedAt(Pop(stack));
      PathPop(stack);
      SeenSnoc(Collapse(stack), Path(Pop(stack)), parent, top.name);
    }
  }

  lemma PopChanged(stack: seq<Config>, top: Config)
    requires |stack| >= 2 && top.name == stack[|stack| - 1].name
    ensures var n, was := |stack|, Pop(stack)[|stack| - 2];
            Pop(stack[..n - 1] + [top]) == Pop(stack)[..n - 2] + [was.(subs := was.subs[top.name := top])]
  {
    var n, parent, was := |stack|, stack[|stack| - 2], Pop(stack)[|stack| - 2];
    assert was.subs[top.name := top] == parent.subs[top.name := top];
    assert (stack[..n - 1] + [top])[..n - 2] == Pop(stack)[..n - 2];
  }

  /** Replacing the top of the stack is an in-place update of the tree through that pointer. */
  lemma {:induction false} TopIsUpdatedInPlace(stack: seq<Config>, top: Config)
    requires stack != [] && top.name == stack[|stack| - 1].name
    ensures Collapse(stack[..|stack| - 1] + [top]) == Put(Collapse(stack), Path(stack), top)
    decreases |stack|
  {
    if |stack| > 1 {
      var was := Pop(stack)[|stack| - 2];
      PopChanged(stack, top);
      TopIsUpdatedInPlace(Pop(stack), was.(subs := was.subs[top.name := top]));
      TopIsPointedAt(Pop(stack));
      PutSnoc(Collapse(stack), Path(Pop(stack)), was, top.name, top);
      PathPop(stack);
    }
  }

  /** Opening a known section, like closing one, leaves the tree as it is. */
  lemma OpenLeavesTree(stack: seq<Config>, key: Text)
    requires stack != [] && key in stack[|stack| - 1].subs && stack[|stack| - 1].subs[key].name == key
    ensures Collapse(stack + [stack[|stack| - 1].subs[key]]) == Collapse(stack)
  {
    PopPushed(stack, key);
  }

  lemma PopPushed(stack: seq<Config>, key: Text)
    requires stack != [] && key in stack[|stack| - 1].subs && stack[|stack| - 1].subs[key].name == key
    ensures Pop(stack + [stack[|stack| - 1].subs[key]]) == stack
  {
    var top := stack[|stack| - 1];
    var more := stack + [top.subs[key]];
    assert top.subs[key := top.subs[key]] == top.subs;
    assert more[..|more| - 2] == stack[..|stack| - 1] && more[|more| - 2] == top;
    assert stack == stack[..|stack| - 1] + [top];
  }

  // ----------------------------------------------------------------- printing

  /** UtilString::repeat("  ", n). */
  function Tab(n: nat): (r: Text)
    ensures forall i :: 0 <= i < |r| ==> r[i] == 32
  {
    if n == 0 then [] else [32, 32] + Tab(n - 1)
  }

  function KeyLine(indent: nat, key: Text, value: Text): Text {
    Tab(indent) + (key + [32, EQUALS, 32] + value)
  }

  function OpenLine(indent: nat, key: Text): Text {
    Tab(indent) + ([LESS] + key + [GREATER])
  }

  function CloseLine(indent: nat, key: Text): Text {
    Tab(indent) + ([LESS, SLASH] + key + [GREATER])
  }

  /** The lines toString writes for the items from `n` on. */
  function Lines(c: Config, n: nat, indent: nat): seq<Text>
    requires n <= |c.items|
    decreases c, |c.items| - n
  {
    if n == |c.items| then []
    else
      var key := c.items[n];
      (if key in c.keys then [KeyLine(indent, key, c.keys[key])]
       else if key in c.subs then
         [OpenLine(indent, key)] + Lines(c.subs[key], 0, indent + 1) + [CloseLine(indent, key)]
       else [])
      + Lines(c, n + 1, indent)
  }

  function Unlines(lines: seq<Text>): Text {
    if lines == [] then [] else lines[0] + [NL] + Unlines(lines[1..])
  }

  /** toString(iIndent). */
  function Print(c: Config, indent: nat): Text {
    Unlines(Lines(c, 0, indent))
  }

  // -------------------------------------------------------------- invariant

  /** Keys a line can carry: trimmed, on one line, without '=', and not taken for a comment or a tag. */
  ghost predicate KeyOk(key: Text) {
    Trimmed(key) && Free(key, NEWLINES) && Free(key, [EQUALS]) && (key == [] || (key[0] != LESS && key[0] != HASH))
  }

  ghost predicate ValueOk(value: Text) {
    Trimmed(value) && Free(value, NEWLINES)
  }

  /** Section names: on one line, without '>', and not taken for a closing tag. */
  ghost predicate NameOk(name: Text) {
    Free(name, NEWLINES) && Free(name, [GREATER]) && (name == [] || name[0] != SLASH)
  }

  ghost predicate NoRepeats(items: seq<Text>) {
    forall i, j :: 0 <= i < j < |items| ==> items[i] != items[j]
  }

  /** The item list is a duplicate-free union of the disjoint key and section domains. */
  ghost predicate Indexed(c: Config) {
    && NoRepeats(c.items)
    && c.keys.Keys !! c.subs.Keys
    && (forall i :: 0 <= i < |c.items| ==> c.items[i] in c.keys.Keys + c.subs.Keys)
    && (forall k <- c.keys.Keys + c.subs.Keys :: k in c.items)
  }

  ghost predicate WellFormed(c: Config)
    decreases c
  {
    && Indexed(c)
    && (forall k <- c.keys :: KeyOk(k) && ValueOk(c.keys[k]))
    && (forall k <- c.subs :: NameOk(k) && c.subs[k].name == k && WellFormed(c.subs[k]))
  }

  /** Every open section is well-formed and belongs to the one below it. */
  ghost predicate StackOk(stack: seq<Config>) {
    && stack != []
    && (forall i :: 0 <= i < |stack| ==> WellFormed(stack[i]))
    && (forall i :: 0 < i < |stack| ==> stack[i].name in stack[i - 1].subs)
  }

  ghost predicate LineOk(line: Line) {
    && (line.KeyValue? ==> KeyOk(line.key) && ValueOk(line.value))
    && (line.Open? ==> NameOk(line.key))
  }

  lemma TrimFront(s: Text, t: Text)
    requires s != [] && !IsSpace(s[0]) && t == Trim(s)
    ensures t != [] ==> t[0] == s[0]
  {
    assert TrimLeft(s) == s;
  }

  /** Whatever a line says, its keys, values and names are printable. */
  lemma ClassifyOk(raw: Text)
    requires Free(raw, NEWLINES)
    ensures LineOk(Classify(raw))
  {
    var s := Trim(raw);
    TrimKeepsFree(raw, NEWLINES);
    TrimIsTrimmed(raw);
    if s != [] && s[0] != HASH {
      if s[0] == LESS {
        OpenOk(s);
      } else {
        KeyValueOk(s);
      }
    }
  }

  lemma OpenOk(s: Text)
    requires s != [] && Free(s, NEWLINES)
    ensures |s| > 1 && FirstOf(s, [GREATER]) == |s| - 1 && s[1] != SLASH ==> NameOk(s[1..|s| - 1])
  {
    if |s| > 1 && FirstOf(s, [GREATER]) == |s| - 1 && s[1] != SLASH {
      var name := s[1..|s| - 1];
      assert forall i :: 0 <= i < |name| ==> name[i] == s[i + 1];
    }
  }

  lemma KeyValueOk(s: Text)
    requires s != [] && Free(s, NEWLINES) && Trimmed(s) && s[0] != LESS && s[0] != HASH
    ensures var pos := FirstOf(s, [EQUALS]);
            if pos < |s| then KeyOk(Trim(s[..pos])) && ValueOk(Trim(s[pos + 1..])) else KeyOk(s)
  {
    var pos := FirstOf(s, [EQUALS]);
    if pos < |s| {
      var left, right := s[..pos], s[pos + 1..];
      TrimIsTrimmed(left);
      TrimIsTrimmed(right);
      TrimKeepsFree(left, NEWLINES);
      TrimKeepsFree(left, [EQUALS]);
      TrimKeepsFree(right, NEWLINES);
      if pos > 0 {
        TrimFront(left, Trim(left));
      } else {
        assert left == [];
      }
    }
  }

  // ------------------------------------------- the parser keeps the invariant

  lemma AddIndexed(c: Config, key: Text, d: Config)
    requires Indexed(c) && key !in c.keys && key !in c.subs && d.items == c.items + [key]
    requires d.keys.Keys + d.subs.Keys == c.keys.Keys + c.subs.Keys + {key} && d.keys.Keys !! d.subs.Keys
    ensures Indexed(d)
  {
    assert forall i :: 0 <= i < |c.items| ==> c.items[i] != key;
    assert forall i :: 0 <= i < |c.items| ==> d.items[i] == c.items[i];
    assert d.items[|c.items|] == key;
    forall k <- d.keys.Keys + d.subs.Keys ensures k in d.items {
      if k != key {
        assert k in c.items;
      }
    }
  }

  lemma AddKey(c: Config, key: Text, value: Text)
    requires WellFormed(c) && key !in c.keys && key !in c.subs && KeyOk(key) && ValueOk(value)
    ensures WellFormed(c.(items := c.items + [key], keys := c.keys[key := value]))
  {
    AddIndexed(c, key, c.(items := c.items + [key], keys := c.keys[key := value]));
  }

  lemma AddSection(c: Config, key: Text)
    requires WellFormed(c) && key !in c.keys && key !in c.subs && NameOk(key)
    ensures WellFormed(c.(items := c.items + [key], subs := c.subs[key := Empty(key)]))
  {
    var d := c.(items := c.items + [key], subs := c.subs[key := Empty(key)]);
    assert WellFormed(Empty(key));
    AddIndexed(c, key, d);
    forall k <- d.subs ensures NameOk(k) && d.subs[k].name == k && WellFormed(d.subs[k]) {
      assert k != key ==> d.subs[k] == c.subs[k];
    }
  }

  lemma ReplaceValue(c: Config, key: Text, value: Text)
    requires WellFormed(c) && key in c.keys && ValueOk(value)
    ensures WellFormed(c.(keys := c.keys[key := value]))
  {
    var d := c.(keys := c.keys[key := value]);
    assert d.keys.Keys == c.keys.Keys;
  }

  lemma ReplaceSection(c: Config, sub: Config)
    requires WellFormed(c) && sub.name in c.subs && WellFormed(sub)
    ensures WellFormed(c.(subs := c.subs[sub.name := sub]))
  {
    var d := c.(subs := c.subs[sub.name := sub]);
    assert d.subs.Keys == c.subs.Keys;
  }

  lemma PopKeeps(stack: seq<Config>)
    requires StackOk(stack) && |stack| >= 2
    ensures StackOk(Pop(stack))
  {
    var n := |stack|;
    ReplaceSection(stack[n - 2], stack[n - 1]);
    var r := Pop(stack);
    assert forall i :: 0 <= i < n - 2 ==> r[i] == stack[i];
    assert r[n - 2].subs.Keys >= stack[n - 2].subs.Keys && r[n - 2].name == stack[n - 2].name;
  }

  lemma TopKeeps(stack: seq<Config>, top: Config)
    requires StackOk(stack) && WellFormed(top) && top.name == stack[|stack| - 1].name
    ensures StackOk(stack[..|stack| - 1] + [top])
  {
    var r := stack[..|stack| - 1] + [top];
    assert forall i :: 0 <= i < |stack| - 1 ==> r[i] == stack[i];
    assert r[|stack| - 1] == top;
  }

  lemma PushKeeps(stack: seq<Config>, sub: Config)
    requires StackOk(stack) && WellFormed(sub) && sub.name in stack[|stack| - 1].subs
    ensures StackOk(stack + [sub])
  {
  }

  lemma StepKeeps(stack: seq<Config>, line: Line)
    requires StackOk(stack) && LineOk(line)
    ensures Step(stack, line).Success? ==> StackOk(Step(stack, line).value)
  {
    var top := stack[|stack| - 1];
    match line
    case Blank =>
    case Malformed =>
    case Close(key) =>
      if |stack| > 1 && top.name == key {
        PopKeeps(stack);
      }
    case Open(key) => OpenKeeps(stack, key);
    case KeyValue(key, value) => KeyValueKeeps(stack, key, value);
  }

  lemma OpenKeeps(stack: seq<Config>, key: Text)
    requires StackOk(stack) && NameOk(key)
    ensures Step(stack, Open(key)).Success? ==> StackOk(Step(stack, Open(key)).value)
  {
    var top := stack[|stack| - 1];
    if key in top.subs {
      PushKeeps(stack, top.subs[key]);
    } else if key !in top.keys {
      var more := WithSection(top, key);
      AddSection(top, key);
      TopKeeps(stack, more);
      var below := stack[..|stack| - 1];
      PushKeeps(below + [more], Empty(key));
      assert below + [more] + [Empty(key)] == below + [more, Empty(key)];
    }
  }

  lemma KeyValueKeeps(stack: seq<Config>, key: Text, value: Text)
    requires StackOk(stack) && KeyOk(key) && ValueOk(value)
    ensures Step(stack, KeyValue(key, value)).Success? ==> StackOk(Step(stack, KeyValue(key, value)).value)
  {
    var top := stack[|stack| - 1];
    if key !in top.subs {
      var more := WithValue(top, key, value);
      if key in top.keys {
        ReplaceValue(top, key, value);
      } else {
        AddKey(top, key, value);
      }
      TopKeeps(stack, more);
    }
  }

  lemma {:induction false} RunLinesKeeps(stack: seq<Config>, lines: seq<Text>)
    requires StackOk(stack) && forall i :: 0 <= i < |lines| ==> Free(lines[i], NEWLINES)
    ensures RunLines(stack, lines).Success? ==> StackOk(RunLines(stack, lines).value)
    decreases |lines|
  {
    if lines != [] {
      ClassifyOk(lines[0]);
      StepKeeps(stack, Classify(lines[0]));
      var next := Step(stack, Classify(lines[0]));
      if next.Success? {
        RunLinesKeeps(next.value, lines[1..]);
      }
    }
  }

  lemma {:induction false} CollapseKeeps(stack: seq<Config>)
    requires StackOk(stack)
    ensures WellFormed(Collapse(stack)) && Collapse(stack).name == stack[0].name
    decreases |stack|
  {
    if |stack| > 1 {
      PopKeeps(stack);
      CollapseKeeps(Pop(stack));
    }
  }

  lemma RunLinesKeepsRoot(stack: seq<Config>, lines: seq<Text>)
    requires stack != []
    ensures RunLines(stack, lines).Success? ==> RunLines(stack, lines).value[0].name == stack[0].name
    decreases |lines|
  {
    if lines != [] {
      var next := Step(stack, Classify(lines[0]));
      if next.Success? {
        assert next.value[0].name == stack[0].name;
        RunLinesKeepsRoot(next.value, lines[1..]);
      }
    }
  }

  /** Parsing into a well-formed configuration, an empty one for instance, leaves a well-formed one. */
  lemma ParseKeeps(text: Text, root: Config)
    requires WellFormed(root)
    ensures var r := Parse(text, root);
            r.Success? ==> WellFormed(r.value) && r.value.name == root.name
  {
    var lines := Split(text, NEWLINES, true);
    SplitPiecesFree(text, NEWLINES);
    RunLinesKeeps([root], lines);
    RunLinesKeepsRoot([root], lines);
    var r := RunLines([root], lines);
    if r.Success? {
      CollapseKeeps(r.value);
    }
  }

  // ------------------------------------------------- the parser with its pointers

  /** What parseString really works on: one tree, and the way from its root to what the top pointer points at. */
  datatype Cursor = Cursor(tree: Config, path: seq<Text>)

  lemma {:induction false} SeenPut(c: Config, path: seq<Text>, t: Config)
    requires Seen(c, path).Some?
    ensures Seen(Put(c, path, t), path) == Some(t)
    decreases |path|
  {
    if path != [] {
      SeenPut(c.subs[path[0]], path[1..], t);
    }
  }

  lemma {:induction false} SeenPrefix(c: Config, path: seq<Text>)
    requires path != [] && Seen(c, path).Some?
    ensures Seen(c, path[..|path| - 1]).Some?
    decreases |path|
  {
    if |path| > 1 {
      SeenPrefix(c.subs[path[0]], path[1..]);
      assert path[..|path| - 1][1..] == path[1..][..|path| - 2];
    }
  }

  /** One line of parseString. No step leaves a pointer dangling. */
  ghost function PointerStep(cur: Cursor, line: Line): (r: Result<Cursor>)
    requires Seen(cur.tree, cur.path).Some?
    ensures r.Success? ==> Seen(r.value.tree, r.value.path).Some?
  {
    var top := Seen(cur.tree, cur.path).value;
    match line
    case Blank => Success(cur)
    case Malformed => Failure(SyntaxError)
    case Close(key) =>
      if cur.path == [] || top.name != key then Failure(KeyMismatch)
      else
        SeenPrefix(cur.tree, cur.path);
        Success(cur.(path := cur.path[..|cur.path| - 1]))
    case Open(key) =>
      if key in top.keys then Failure(OverrideKey)
      else if key in top.subs then
        SeenSnoc(cur.tree, cur.path, top, key);
        Success(cur.(path := cur.path + [key]))
      else
        var tree := Put(cur.tree, cur.path, WithSection(top, key));
        SeenPut(cur.tree, cur.path, WithSection(top, key));
        SeenSnoc(tree, cur.path, WithSection(top, key), key);
        Success(Cursor(tree, cur.path + [key]))
    case KeyValue(key, value) =>
      if key in top.subs then Failure(OverrideSection)
      else
        SeenPut(cur.tree, cur.path, WithValue(top, key, value));
        Success(cur.(tree := Put(cur.tree, cur.path, WithValue(top, key, value))))
  }

  ghost function PointerRun(cur: Cursor, lines: seq<Text>): Result<Cursor>
    requires Seen(cur.tree, cur.path).Some?
    decreases |lines|
  {
    if lines == [] then Success(cur)
    else
      var next := PointerStep(cur, Classify(lines[0]));
      if next.Failure? then next else PointerRun(next.value, lines[1..])
  }

  /** parseString as the source has it: the tree is changed in place, and what is still open at the end stays there. */
  ghost function PointerParse(text: Text, root: Config): Result<Config> {
    var r := PointerRun(Cursor(root, []), Split(text, NEWLINES, true));
    if r.Failure? then Failure(r.error) else Success(r.value.tree)
  }

  function CursorOf(stack: seq<Config>): Cursor
    requires stack != []
  {
    Cursor(Collapse(stack), Path(stack))
  }

  function CursorResult(r: Result<seq<Config>>): Result<Cursor>
    requires r.Success? ==> r.value != []
  {
    if r.Failure? then Failure(r.error) else Success(CursorOf(r.value))
  }

  lemma CloseFollows(stack: seq<Config>, key: Text)
    requires stack != []
    ensures Seen(CursorOf(stack).tree, CursorOf(stack).path).Some?
    ensures PointerStep(CursorOf(stack), Close(key)) == CursorResult(Step(stack, Close(key)))
  {
    TopIsPointedAt(stack);
    if |stack| > 1 {
      PathPop(stack);
    }
  }

  lemma TopChanges(stack: seq<Config>, top: Config)
    requires stack != [] && top.name == stack[|stack| - 1].name
    ensures CursorOf(stack[..|stack| - 1] + [top]) == Cursor(Put(Collapse(stack), Path(stack), top), Path(stack))
  {
    TopIsUpdatedInPlace(stack, top);
    assert Path(stack[..|stack| - 1] + [top]) == Path(stack);
  }

  lemma SectionPushed(stack: seq<Config>, key: Text)
    requires stack != [] && key in stack[|stack| - 1].subs && stack[|stack| - 1].subs[key].name == key
    ensures CursorOf(stack + [stack[|stack| - 1].subs[key]]) == Cursor(Collapse(stack), Path(stack) + [key])
  {
    OpenLeavesTree(stack, key);
    assert Path(stack + [stack[|stack| - 1].subs[key]]) == Path(stack) + [key];
  }

  lemma OpenFollows(stack: seq<Config>, key: Text)
    requires StackOk(stack)
    ensures Seen(CursorOf(stack).tree, CursorOf(stack).path).Some?
    ensures PointerStep(CursorOf(stack), Open(key)) == CursorResult(Step(stack, Open(key)))
  {
    TopIsPointedAt(stack);
    var top, below := stack[|stack| - 1], stack[..|stack| - 1];
    if key in top.subs {
      SectionPushed(stack, key);
    } else if key !in top.keys {
      var more := below + [WithSection(top, key)];
      TopChanges(stack, WithSection(top, key));
      SectionPushed(more, key);
      assert more + [Empty(key)] == below + [WithSection(top, key), Empty(key)];
    }
  }

  lemma StepFollows(stack: seq<Config>, line: Line)
    requires StackOk(stack)
    ensures Seen(CursorOf(stack).tree, CursorOf(stack).path).Some?
    ensures PointerStep(CursorOf(stack), line) == CursorResult(Step(stack, line))
  {
    TopIsPointedAt(stack);
    match line
    case Blank =>
    case Malformed =>
    case Close(key) => CloseFollows(stack, key);
    case Open(key) => OpenFollows(stack, key);
    case KeyValue(key, value) => TopChanges(stack, WithValue(stack[|stack| - 1], key, value));
  }

  lemma {:induction false} RunFollows(stack: seq<Config>, lines: seq<Text>)
    requires StackOk(stack) && forall i :: 0 <= i < |lines| ==> Free(lines[i], NEWLINES)
    ensures Seen(CursorOf(stack).tree, CursorOf(stack).path).Some?
    ensures PointerRun(CursorOf(stack), lines) == CursorResult(RunLines(stack, lines))
    decreases |lines|
  {
    TopIsPointedAt(stack);
    if lines != [] {
      var line := Classify(lines[0]);
      StepFollows(stack, line);
      if Step(stack, line).Success? {
        ClassifyOk(lines[0]);
        StepKeeps(stack, line);
        RunFollows(Step(stack, line).value, lines[1..]);
      }
    }
  }

  /** Working on copies that go back when they are closed gives, errors included, what the pointers give. */
  lemma ParseFollowsPointers(text: Text, root: Config)
    requires WellFormed(root)
    ensures Parse(text, root) == PointerParse(text, root)
  {
    SplitPiecesFree(text, NEWLINES);
    RunFollows([root], Split(text, NEWLINES, true));
    assert CursorOf([root]) == Cursor(root, []);
  }

  // ------------------------------------------------- reading back what was printed

  /** The two sides of a printed key line, as they are after trimming the line. */
  function LeftSide(key: Text): Text {
    if key == [] then [] else key + [32]
  }

  function RightSide(value: Text): Text {
    if value == [] then [] else [32] + value
  }

  /** The blank that trimming takes off beside an empty side. */
  function Pad(side: Text): Text {
    if side == [] then [32] else []
  }

  lemma TrimTab(tab: Text, s: Text)
    requires forall i :: 0 <= i < |tab| ==> tab[i] == 32
    ensures Trim(tab + s) == Trim(s)
  {
    TrimLeftPad(tab, s);
  }

  /** The white space that trimming takes off a key line without its indentation. */
  lemma BodyShape(key: Text, value: Text)
    ensures key + [32, EQUALS, 32] + value
            == Pad(key) + (LeftSide(key) + [EQUALS] + RightSide(value)) + Pad(value)
  {
    var middle: Text := [32, EQUALS, 32];
    if key == [] && value == [] {
    } else if key == [] {
      assert middle + value == [32] + ([EQUALS] + ([32] + value));
    } else if value == [] {
      assert key + middle == key + [32] + [EQUALS] + [32];
    } else {
      assert key + middle + value == key + [32] + [EQUALS] + ([32] + value);
    }
  }

  lemma TrimBody(key: Text, value: Text)
    requires Trimmed(key) && Trimmed(value)
    ensures Trim(key + [32, EQUALS, 32] + value) == LeftSide(key) + [EQUALS] + RightSide(value)
  {
    BodyShape(key, value);
    TrimPadded(Pad(key), LeftSide(key) + [EQUALS] + RightSide(value), Pad(value));
  }

  lemma FirstEquals(left: Text, right: Text)
    requires Free(left, [EQUALS])
    ensures FirstOf(left + [EQUALS] + right, [EQUALS]) == |left|
    ensures (left + [EQUALS] + right)[..|left|] == left && (left + [EQUALS] + right)[|left| + 1..] == right
  {
    var s := left + [EQUALS] + right;
    assert IsFirstOf(s, [EQUALS], |left|);
    FirstOfUnique(s, [EQUALS], |left|);
  }

  lemma ClassifySides(raw: Text, left: Text, right: Text)
    requires Trim(raw) == left + [EQUALS] + right && Free(left, [EQUALS])
    requires left != [] ==> left[0] != HASH && left[0] != LESS
    ensures Classify(raw) == KeyValue(Trim(left), Trim(right))
  {
    FirstEquals(left, right);
  }

  lemma ClassifyKeyLine(indent: nat, key: Text, value: Text)
    requires KeyOk(key) && ValueOk(value)
    ensures Classify(KeyLine(indent, key, value)) == KeyValue(key, value)
  {
    TrimTab(Tab(indent), key + [32, EQUALS, 32] + value);
    TrimBody(key, value);
    ClassifySides(KeyLine(indent, key, value), LeftSide(key), RightSide(value));
    TrimSides(key, value);
  }

  lemma TrimSides(key: Text, value: Text)
    requires Trimmed(key) && Trimmed(value)
    ensures Trim(LeftSide(key)) == key && Trim(RightSide(value)) == value
  {
    TrimPadded([], key, [32]);
    TrimPadded([32], value, []);
    assert [] + key + [32] == key + [32];
    assert [32] + value + [] == [32] + value;
  }

  lemma ClassifyOpenLine(indent: nat, key: Text)
    requires NameOk(key)
    ensures Classify(OpenLine(indent, key)) == Open(key)
  {
    var s := [LESS] + key + [GREATER];
    assert OpenLine(indent, key) == Tab(indent) + s + [];
    TrimPadded(Tab(indent), s, []);
    assert IsFirstOf(s, [GREATER], |s| - 1);
    FirstOfUnique(s, [GREATER], |s| - 1);
    assert s[1..|s| - 1] == key;
  }

  lemma ClassifyCloseLine(indent: nat, key: Text)
    requires NameOk(key)
    ensures Classify(CloseLine(indent, key)) == Close(key)
  {
    var s := [LESS, SLASH] + key + [GREATER];
    assert CloseLine(indent, key) == Tab(indent) + s + [];
    TrimPadded(Tab(indent), s, []);
    assert IsFirstOf(s, [GREATER], |s| - 1);
    FirstOfUnique(s, [GREATER], |s| - 1);
    assert s[2..|s| - 1] == key;
  }

  ghost predicate Continues(r: Result<seq<Config>>, lines: seq<Text>, end: Result<seq<Config>>) {
    if r.Failure? then end == r else r.value != [] && end == RunLines(r.value, lines)
  }

  /** Running lines is running the first one, then the others from where it leads. */
  lemma RunFirst(stack: seq<Config>, line: Text, later: seq<Text>, even: seq<Text>) returns (r: Result<seq<Config>>)
    requires stack != []
    ensures Continues(r, later, RunLines(stack, [line] + later))
    ensures Continues(r, even, RunLines(stack, [line] + even))
  {
    r := Step(stack, Classify(line));
    assert ([line] + later)[0] == line && ([line] + later)[1..] == later;
    assert ([line] + even)[0] == line && ([line] + even)[1..] == even;
  }

  lemma {:induction false} RunLinesAppend(stack: seq<Config>, first: seq<Text>, second: seq<Text>)
    requires stack != [] && RunLines(stack, first).Success?
    ensures RunLines(stack, first + second) == RunLines(RunLines(stack, first).value, second)
    decreases |first|
  {
    if first == [] {
      assert first + second == second;
    } else {
      var later := first[1..];
      var r := RunFirst(stack, first[0], later, later + second);
      assert first == [first[0]] + later && first + second == [first[0]] + (later + second);
      RunLinesAppend(r.value, later, second);
    }
  }

  lemma RunOne(stack: seq<Config>, line: Text)
    requires stack != []
    ensures RunLines(stack, [line]) == Step(stack, Classify(line))
  {
    var next := Step(stack, Classify(line));
    assert [line][1..] == [];
    if next.Success? {
      assert RunLines(next.value, []) == next;
    }
  }

  /** The part of a configuration that its first `n` items make up. */
  ghost function Upto(c: Config, n: nat): Config
    requires n <= |c.items|
  {
    Config(c.name, c.items[..n], Only(c.keys, c.items[..n]), Only(c.subs, c.items[..n]))
  }

  ghost function Only<V>(m: map<Text, V>, keys: seq<Text>): map<Text, V> {
    map k | k in m && k in keys :: m[k]
  }

  lemma OnlyOneMore<V>(m: map<Text, V>, keys: seq<Text>, key: Text)
    ensures key in m ==> Only(m, keys + [key]) == Only(m, keys)[key := m[key]]
    ensures key !in m ==> Only(m, keys + [key]) == Only(m, keys)
  {
  }

  lemma UptoAll(c: Config)
    requires Indexed(c)
    ensures Upto(c, |c.items|) == c && Upto(c, 0) == Empty(c.name)
  {
    assert c.items[..|c.items|] == c.items;
    assert Upto(c, |c.items|).keys == c.keys && Upto(c, |c.items|).subs == c.subs;
    assert Upto(c, 0).keys == map[] && Upto(c, 0).subs == map[];
  }

  lemma ItemAhead(c: Config, n: nat)
    requires Indexed(c) && n < |c.items|
    ensures c.items[n] !in c.items[..n] && c.items[..n + 1] == c.items[..n] + [c.items[n]]
  {
  }

  lemma UptoNextKey(c: Config, n: nat)
    requires Indexed(c) && n < |c.items| && c.items[n] in c.keys
    ensures var key, u, v := c.items[n], Upto(c, n), Upto(c, n + 1);
            && key !in u.keys && key !in u.subs
            && v == u.(items := u.items + [key], keys := u.keys[key := c.keys[key]])
  {
    ItemAhead(c, n);
    OnlyOneMore(c.keys, c.items[..n], c.items[n]);
    OnlyOneMore(c.subs, c.items[..n], c.items[n]);
  }

  lemma UptoNextSection(c: Config, n: nat)
    requires Indexed(c) && n < |c.items| && c.items[n] in c.subs
    ensures var key, u, v := c.items[n], Upto(c, n), Upto(c, n + 1);
            && key !in u.keys && key !in u.subs
            && v == u.(items := u.items + [key], subs := u.subs[key := c.subs[key]])
  {
    ItemAhead(c, n);
    OnlyOneMore(c.keys, c.items[..n], c.items[n]);
    OnlyOneMore(c.subs, c.items[..n], c.items[n]);
  }

  lemma UptoKey(stack: seq<Config>, c: Config, n: nat)
    requires Indexed(c) && n < |c.items| && c.items[n] in c.keys
    ensures Step(stack + [Upto(c, n)], KeyValue(c.items[n], c.keys[c.items[n]])) == Success(stack + [Upto(c, n + 1)])
  {
    UptoNextKey(c, n);
    assert (stack + [Upto(c, n)])[..|stack|] == stack;
  }

  ghost function Begun(c: Config, n: nat): Config
    requires n < |c.items|
  {
    var u := Upto(c, n);
    u.(items := u.items + [c.items[n]], subs := u.subs[c.items[n] := Empty(c.items[n])])
  }

  lemma SectionOpens(stack: seq<Config>, c: Config, n: nat)
    requires Indexed(c) && n < |c.items| && c.items[n] in c.subs
    ensures var key := c.items[n];
            Step(stack + [Upto(c, n)], Open(key)) == Success(stack + [Begun(c, n)] + [Empty(key)])
  {
    var key, u := c.items[n], Upto(c, n);
    UptoNextSection(c, n);
    assert (stack + [u])[..|stack|] == stack;
    assert stack + [Begun(c, n), Empty(key)] == stack + [Begun(c, n)] + [Empty(key)];
  }

  lemma CloseFolds(stack: seq<Config>, parent: Config, section: Config)
    ensures Step(stack + [parent] + [section], Close(section.name))
            == Success(stack + [parent.(subs := parent.subs[section.name := section])])
  {
    var full := stack + [parent] + [section];
    assert full[..|full| - 2] == stack && full[|full| - 2] == parent;
  }

  lemma SecondWins(subs: map<Text, Config>, key: Text, first: Config, second: Config)
    ensures subs[key := first][key := second] == subs[key := second]
  {
  }

  lemma BegunCompletes(c: Config, n: nat)
    requires Indexed(c) && n < |c.items| && c.items[n] in c.subs
    ensures var key, begun := c.items[n], Begun(c, n);
            begun.(subs := begun.subs[key := c.subs[key]]) == Upto(c, n + 1)
  {
    var key := c.items[n];
    UptoNextSection(c, n);
    SecondWins(Upto(c, n).subs, key, Empty(key), c.subs[key]);
  }

  lemma SectionCloses(stack: seq<Config>, c: Config, n: nat)
    requires Indexed(c) && n < |c.items| && c.items[n] in c.subs && c.subs[c.items[n]].name == c.items[n]
    ensures var key := c.items[n];
            Step(stack + [Begun(c, n)] + [c.subs[key]], Close(key)) == Success(stack + [Upto(c, n + 1)])
  {
    BegunCompletes(c, n);
    CloseFolds(stack, Begun(c, n), c.subs[c.items[n]]);
  }

  /** Running the printed lines of the items from `n` on turns the first `n` items into the whole configuration. */
  lemma {:induction false} LinesRebuild(stack: seq<Config>, c: Config, n: nat, indent: nat)
    requires WellFormed(c) && n <= |c.items|
    ensures RunLines(stack + [Upto(c, n)], Lines(c, n, indent)) == Success(stack + [c])
    decreases c, |c.items| - n
  {
    if n == |c.items| {
      UptoAll(c);
    } else {
      var key := c.items[n];
      var later := Lines(c, n + 1, indent);
      LinesRebuild(stack, c, n + 1, indent);
      if key in c.keys {
        var line := KeyLine(indent, key, c.keys[key]);
        ClassifyKeyLine(indent, key, c.keys[key]);
        UptoKey(stack, c, n);
        RunOne(stack + [Upto(c, n)], line);
        RunLinesAppend(stack + [Upto(c, n)], [line], later);
      } else {
        SectionRebuilds(stack, c, n, indent);
        RunLinesAppend(stack + [Upto(c, n)], SectionLines(c, n, indent), later);
      }
    }
  }

  function SectionLines(c: Config, n: nat, indent: nat): seq<Text>
    requires n < |c.items| && c.items[n] in c.subs
  {
    [OpenLine(indent, c.items[n])] + Lines(c.subs[c.items[n]], 0, indent + 1) + [CloseLine(indent, c.items[n])]
  }

  lemma {:induction false} SectionRebuilds(stack: seq<Config>, c: Config, n: nat, indent: nat)
    requires WellFormed(c) && n < |c.items| && c.items[n] in c.subs
    ensures RunLines(stack + [Upto(c, n)], SectionLines(c, n, indent)) == Success(stack + [Upto(c, n + 1)])
    decreases c, |c.items| - n, 0
  {
    var key, u := c.items[n], Upto(c, n);
    var sub, inner := c.subs[key], Lines(c.subs[key], 0, indent + 1);
    var begun := Begun(c, n);
    var open, close := [OpenLine(indent, key)], [CloseLine(indent, key)];
    SectionOpens(stack, c, n);
    SectionCloses(stack, c, n);
    ClassifyOpenLine(indent, key);
    RunOne(stack + [u], open[0]);
    UptoAll(sub);
    LinesRebuild(stack + [begun], sub, 0, indent + 1);
    RunLinesAppend(stack + [u], open, inner);
    ClassifyCloseLine(indent, key);
    RunOne(stack + [begun] + [sub], close[0]);
    RunLinesAppend(stack + [u], open + inner, close);
  }

  // ----------------------------------------------------------- text and lines

  ghost predicate Printable(line: Text) {
    line != [] && Free(line, NEWLINES)
  }

  ghost predicate AllPrintable(lines: seq<Text>) {
    forall i :: 0 <= i < |lines| ==> Printable(lines[i])
  }

  lemma {:induction false} SplitUnlines(lines: seq<Text>)
    requires AllPrintable(lines)
    ensures Split(Unlines(lines), NEWLINES, true) == lines
  {
    if lines == [] {
      SplitLast([], NEWLINES);
    } else {
      SplitUnlines(lines[1..]);
      SplitPiece(lines[0], NL, Unlines(lines[1..]), NEWLINES);
    }
  }

  lemma KeyLinePrintable(indent: nat, key: Text, value: Text)
    requires KeyOk(key) && ValueOk(value)
    ensures AllPrintable([KeyLine(indent, key, value)])
  {
  }

  lemma TagLinesPrintable(indent: nat, key: Text)
    requires NameOk(key)
    ensures AllPrintable([OpenLine(indent, key)]) && AllPrintable([CloseLine(indent, key)])
  {
  }

  lemma {:induction false} LinesPrintable(c: Config, n: nat, indent: nat)
    requires WellFormed(c) && n <= |c.items|
    ensures AllPrintable(Lines(c, n, indent))
    decreases c, |c.items| - n
  {
    if n < |c.items| {
      var key := c.items[n];
      LinesPrintable(c, n + 1, indent);
      if key in c.keys {
        KeyLinePrintable(indent, key, c.keys[key]);
        BothPrintable([KeyLine(indent, key, c.keys[key])], Lines(c, n + 1, indent));
      } else {
        TagLinesPrintable(indent, key);
        LinesPrintable(c.subs[key], 0, indent + 1);
        BothPrintable([OpenLine(indent, key)], Lines(c.subs[key], 0, indent + 1));
        BothPrintable([OpenLine(indent, key)] + Lines(c.subs[key], 0, indent + 1), [CloseLine(indent, key)]);
        BothPrintable(SectionLines(c, n, indent), Lines(c, n + 1, indent));
      }
    }
  }

  lemma BothPrintable(a: seq<Text>, b: seq<Text>)
    requires AllPrintable(a) && AllPrintable(b)
    ensures AllPrintable(a + b)
  {
  }

  /** Printing a well-formed configuration at any indentation and parsing it gives the configuration back. */
  lemma ParseInvertsPrint(c: Config, indent: nat)
    requires WellFormed(c)
    ensures Parse(Print(c, indent), Empty(c.name)) == Success(c)
  {
    var lines := Lines(c, 0, indent);
    LinesPrintable(c, 0, indent);
    SplitUnlines(lines);
    UptoAll(c);
    LinesRebuild([], c, 0, indent);
    assert [] + [Empty(c.name)] == [Empty(c.name)] && [] + [c] == [c];
  }

  /**
   Config text normalises: for every text that parses into an empty configuration, reopened and unclosed sections
   included, printing the tree and parsing that text yields the same tree: same item order, keys, values and nesting.
   */
  lemma ConfigNormalises(text: Text, indent: nat)
    requires Parse(text, Empty([])).Success?
    ensures var c := Parse(text, Empty([])).value;
            WellFormed(c) && Parse(Print(c, indent), Empty([])) == Success(c)
  {
    ParseKeeps(text, Empty([]));
    ParseInvertsPrint(Parse(text, Empty([])).value, indent);
  }

  // --------------------------------------------------------------- the loops

  method ClassifyLine(raw: Text) returns (line: Line)
    ensures line == Classify(raw)
  {
    var s := TrimString(raw);
    if s == [] || s[0] == HASH {
      return Blank;
    }
    if s[0] == LESS {
      var end := FindFirstOf(s, [GREATER]);
      if |s| <= 1 || end != |s| - 1 {
        return Malformed;
      }
      return if s[1] == SLASH then Close(s[2..|s| - 1]) else Open(s[1..|s| - 1]);
    }
    var pos := FindFirstOf(s, [EQUALS]);
    if pos == |s| {
      return KeyValue(s, []);
    }
    var key := TrimString(s[..pos]);
    var value := TrimString(s[pos + 1..]);
    line := KeyValue(key, value);
  }

  /** parseString. */
  method ParseString(text: Text, root: Config) returns (r: Result<Config>)
    ensures r == Parse(text, root)
  {
    var lines := SplitString(text, NEWLINES, true);
    var stack := [root];
    ghost var goal := RunLines(stack, lines);
    while lines != []
      invariant stack != [] && RunLines(stack, lines) == goal
      decreases |lines|
    {
      var line := ClassifyLine(lines[0]);
      var next := Step(stack, line);
      if next.Failure? {
        return Failure(next.error);
      }
      stack, lines := next.value, lines[1..];
    }
    while |stack| > 1
      invariant stack != [] && goal.Success? && Collapse(stack) == Collapse(goal.value)
      decreases |stack|
    {
      stack := Pop(stack);
    }
    r := Success(stack[0]);
  }

  lemma {:induction false} UnlinesAppend(first: seq<Text>, second: seq<Text>)
    ensures Unlines(first + second) == Unlines(first) + Unlines(second)
  {
    if first == [] {
      assert first + second == second;
    } else {
      UnlinesAppend(first[1..], second);
      assert (first + second)[0] == first[0] && (first + second)[1..] == first[1..] + second;
      ConcatAssociates(first[0] + [NL], Unlines(first[1..]), Unlines(second));
    }
  }

  lemma UnlinesOne(line: Text)
    ensures Unlines([line]) == line + [NL]
  {
    assert Unlines([line]) == line + [NL] + Unlines([line][1..]);
  }

  /** The text of one item. */
  function ItemLines(c: Config, n: nat, indent: nat): seq<Text>
    requires n < |c.items|
  {
    var key := c.items[n];
    if key in c.keys then [KeyLine(indent, key, c.keys[key])]
    else if key in c.subs then SectionLines(c, n, indent)
    else []
  }

  /** toString: a loop over the items, and a call of itself for each section. */
  method ToString(c: Config, indent: nat) returns (text: Text)
    ensures text == Print(c, indent)
    decreases c
  {
    text := [];
    var n := 0;
    while n < |c.items|
      invariant 0 <= n <= |c.items|
      invariant text + Unlines(Lines(c, n, indent)) == Print(c, indent)
    {
      var key := c.items[n];
      var piece: Text := [];
      if key in c.keys {
        piece := KeyLine(indent, key, c.keys[key]) + [NL];
        UnlinesOne(KeyLine(indent, key, c.keys[key]));
      } else if key in c.subs {
        var inner := ToString(c.subs[key], indent + 1);
        piece := OpenLine(indent, key) + [NL] + inner + (CloseLine(indent, key) + [NL]);
        SectionText(c, n, indent);
      }
      assert piece == Unlines(ItemLines(c, n, indent));
      UnlinesAppend(ItemLines(c, n, indent), Lines(c, n + 1, indent));
      ConcatAssociates(text, piece, Unlines(Lines(c, n + 1, indent)));
      text := text + piece;
      n := n + 1;
    }
  }

  lemma SectionText(c: Config, n: nat, indent: nat)
    requires n < |c.items| && c.items[n] in c.subs
    ensures var key := c.items[n];
            Unlines(SectionLines(c, n, indent))
            == OpenLine(indent, key) + [NL] + Print(c.subs[key], indent + 1) + (CloseLine(indent, key) + [NL])
  {
    var key := c.items[n];
    var inner := Lines(c.subs[key], 0, indent + 1);
    UnlinesOne(OpenLine(indent, key));
    UnlinesOne(CloseLine(indent, key));
    UnlinesAppend([OpenLine(indent, key)], inner);
    UnlinesAppend([OpenLine(indent, key)] + inner, [CloseLine(indent, key)]);
  }
}
