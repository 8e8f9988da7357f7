/**
 Size-based log rotation: LogBase::writeLog and RollLog::prepareLogFile of source/util/util_log.cpp, over a map from
 the index in a rolled file's name to the file's contents.
 */
module RollLogs {
  import opened Bytes

  type Files = map<nat, Text>

  /** FILE_REOPEN_INTERVAL, in seconds. */
  const REOPEN_INTERVAL: int := 10

  /** m_maxFile, a 32-bit number, and m_maxSize. */
  datatype Limits = Limits(maxFile: Word, maxSize: nat)

  type Word = n: int | 0 <= n < U32

  /** With no file, or a size limit of 0, prepareLogFile can call itself for ever: see PrepareReturnsIff. */
  ghost predicate Usable(c: Limits) {
    c.maxFile >= 1 && c.maxSize >= 1
  }

  /**
   `open` is m_fp != NULL, `size` m_fileSize and `openTime` m_openTime. `lost` is a history: the contents of the files
   that rotation has removed, in order.
   */
  datatype State = State(files: Files, open: bool, size: nat, openTime: nat, lost: Text)

  function Get(files: Files, i: nat): Text {
    if i in files then files[i] else []
  }

  /** What the rolled files hold, from the highest index, the oldest data, down to index 0. */
  function Log(files: Files, n: nat): Text {
    if n == 0 then [] else Get(files, n - 1) + Log(files, n - 1)
  }

  // ---------------------------------------------------------------- rotation

  /** rename of file `i` to `i + 1`, which does nothing when file `i` does not exist. */
  function Moved(files: Files, i: nat): Files {
    if i in files then (files - {i})[i + 1 := files[i]] else files
  }

  /** The rename loop, from index `i` down to 0. */
  function MovedDown(files: Files, i: int): Files
    decreases i
  {
    if i < 0 then files else MovedDown(Moved(files, i), i - 1)
  }

  /** The last file is removed and every other one moves up by one. */
  function Rotated(files: Files, maxFile: nat): Files
    requires maxFile >= 1
  {
    MovedDown(files - {maxFile - 1}, maxFile - 2)
  }

  /** File `k` of `r` is file `j` of `files`, or neither exists. */
  ghost predicate Same(r: Files, k: nat, files: Files, j: nat) {
    (k in r <==> j in files) && (k in r ==> r[k] == files[j])
  }

  /** Moving down onto a free index shifts everything up by one and leaves index 0 free. */
  lemma {:induction false} MovedDownAt(files: Files, i: int, k: nat)
    requires i >= -1 && i + 1 !in files
    ensures var r := MovedDown(files, i);
            if k == 0 then k !in r else if k <= i + 1 then Same(r, k, files, k - 1) else Same(r, k, files, k)
    decreases i
  {
    if i >= 0 {
      MovedDownAt(Moved(files, i), i - 1, k);
    }
  }

  /** Rotation shifts the files below the limit up by one, removes the last and leaves those beyond untouched. */
  lemma RotatedAt(files: Files, maxFile: nat, k: nat)
    requires maxFile >= 1
    ensures var r := Rotated(files, maxFile);
            if k == 0 then k !in r else if k < maxFile then Same(r, k, files, k - 1) else Same(r, k, files, k)
  {
    MovedDownAt(files - {maxFile - 1}, maxFile - 2, k);
  }

  lemma {:induction false} RotatedLog(files: Files, maxFile: nat, n: nat)
    requires 1 <= n <= maxFile
    ensures Log(Rotated(files, maxFile), n) == Log(files, n - 1)
  {
    var r := Rotated(files, maxFile);
    RotatedAt(files, maxFile, n - 1);
    if n == 1 {
      assert Log(r, 1) == Get(r, 0) + Log(r, 0);
    } else {
      RotatedLog(files, maxFile, n - 1);
    }
  }

  /** Rotation loses exactly the oldest file. */
  lemma RotationLosesOldest(files: Files, maxFile: nat)
    requires maxFile >= 1
    ensures Log(files, maxFile) == Get(files, maxFile - 1) + Log(Rotated(files, maxFile), maxFile)
  {
    RotatedLog(files, maxFile, maxFile);
  }

  // ------------------------------------------------------------ prepare, write

  function Reopens(s: State, time: nat): bool {
    !s.open || (time - REOPEN_INTERVAL) % U32 > s.openTime
  }

  /** Opening for append creates a missing file and measures it. */
  function Opened(s: State, time: nat, ok: bool): State {
    if ok then
      s.(files := s.files[0 := Get(s.files, 0)], open := true, size := |Get(s.files, 0)|, openTime := time)
    else s.(open := false, openTime := time)
  }

  /** prepareLogFile; `first` and `second` say whether the fopen of the call and of its recursive call succeed. */
  function Prepared(c: Limits, s: State, time: nat, first: bool, second: bool): State
    requires c.maxFile >= 1
  {
    var t := if Reopens(s, time) then Opened(s, time, first) else s;
    if !t.open || t.size < c.maxSize then t
    else Opened(t.(open := false, files := Rotated(t.files, c.maxFile),
                   lost := t.lost + Get(t.files, c.maxFile - 1)), time, second)
  }

  // ------------------------------------------------------------- the recursion

  /** One call of prepareLogFile: it returns, or it has rolled the files and is about to call itself. */
  datatype Call = Done(s: State) | Again(s: State)

  /** The rolling as the source writes it. Without any file it removes index 2^32 - 1 and moves nothing. */
  function OneCall(c: Limits, s: State, time: nat, ok: bool): Call {
    var t := if Reopens(s, time) then Opened(s, time, ok) else s;
    if !t.open || t.size < c.maxSize then Done(t)
    else
      var last := (c.maxFile - 1) % U32;
      Again(t.(open := false, lost := t.lost + Get(t.files, last),
               files := if c.maxFile == 0 then t.files - {last} else MovedDown(t.files - {last}, c.maxFile - 2)))
  }

  /** What the nested calls return, given the outcomes of fopen: nothing while another call is due. */
  function Calls(c: Limits, s: State, time: nat, oks: seq<bool>): Option<State>
    decreases |oks|
  {
    if oks == [] then None
    else
      match OneCall(c, s, time, oks[0])
      case Done(t) => Some(t)
      case Again(u) => Calls(c, u, time, oks[1..])
  }

  /** With usable limits the second call returns, so the two outcomes of fopen that Prepared takes are all there are. */
  lemma CallsArePrepared(c: Limits, s: State, time: nat, oks: seq<bool>)
    requires Usable(c) && |oks| >= 2
    ensures Calls(c, s, time, oks) == Some(Prepared(c, s, time, oks[0], oks[1]))
  {
    var first := OneCall(c, s, time, oks[0]);
    if first.Again? {
      var t := if Reopens(s, time) then Opened(s, time, oks[0]) else s;
      RotatedAt(t.files, c.maxFile, 0);
      assert OneCall(c, first.s, time, oks[1]).Done?;
    }
  }

  /** The file the log is written to stays full, or no file is ever small enough. */
  ghost predicate Hopeless(c: Limits, s: State) {
    !s.open && (c.maxSize == 0 || (c.maxFile == 0 && |Get(s.files, 0)| >= c.maxSize))
  }

  lemma {:induction false} NeverReturns(c: Limits, s: State, time: nat, oks: seq<bool>)
    requires Hopeless(c, s) && false !in oks
    ensures Calls(c, s, time, oks) == None
    decreases |oks|
  {
    if oks != [] {
      NeverReturns(c, OneCall(c, s, time, true).s, time, oks[1..]);
    }
  }

  /** However often fopen succeeds, another call is due. */
  ghost predicate Loops(c: Limits, s: State, time: nat) {
    forall oks: seq<bool> :: false !in oks ==> Calls(c, s, time, oks) == None
  }

  /** An open file exists and its recorded size is its length. */
  ghost predicate SizeKnown(s: State) {
    s.open ==> 0 in s.files && s.size == |s.files[0]|
  }

  ghost predicate CanLoop(c: Limits, time: nat) {
    exists s: State :: SizeKnown(s) && Loops(c, s, time)
  }

  ghost predicate AlwaysReturns(c: Limits, time: nat) {
    forall s: State, oks: seq<bool> :: |oks| >= 2 ==> Calls(c, s, time, oks).Some?
  }

  /**
   prepareLogFile returns, after at most two calls and whatever fopen does, if and only if there is at least one file
   and the size limit is positive; otherwise it can call itself for ever.
   */
  lemma PrepareReturnsIff(c: Limits, time: nat)
    ensures Usable(c) <==> AlwaysReturns(c, time)
    ensures Usable(c) <==> !CanLoop(c, time)
  {
    if Usable(c) {
      forall s: State, oks: seq<bool> | |oks| >= 2 ensures Calls(c, s, time, oks).Some? {
        CallsArePrepared(c, s, time, oks);
      }
      forall s: State ensures !Loops(c, s, time) {
        assert false !in [true, true] && Calls(c, s, time, [true, true]).Some?;
      }
    } else {
      var s := State(map[0 := seq(c.maxSize, _ => 0)], false, 0, 0, []);
      forall oks: seq<bool> | false !in oks ensures Calls(c, s, time, oks) == None {
        NeverReturns(c, s, time, oks);
      }
      assert SizeKnown(s) && Loops(c, s, time);
      assert Calls(c, s, time, [true, true]) == None;
    }
  }

  datatype Record = Record(time: nat, content: Text, first: bool, second: bool)

  /** writeLog: the content is appended to file 0, if it could be opened. */
  function Written(c: Limits, s: State, r: Record): State
    requires c.maxFile >= 1
  {
    var t := Prepared(c, s, r.time, r.first, r.second);
    if t.open then t.(files := t.files[0 := Get(t.files, 0) + r.content], size := t.size + |r.content|) else t
  }

  /** What a record adds to the log: nothing when the file could not be opened. */
  function Accepted(c: Limits, s: State, r: Record): Text
    requires c.maxFile >= 1
  {
    if Prepared(c, s, r.time, r.first, r.second).open then r.content else []
  }

  function Run(c: Limits, s: State, records: seq<Record>): State
    requires c.maxFile >= 1
    decreases |records|
  {
    if records == [] then s else Run(c, Written(c, s, records[0]), records[1..])
  }

  function Logged(c: Limits, s: State, records: seq<Record>): Text
    requires c.maxFile >= 1
    decreases |records|
  {
    if records == [] then [] else Accepted(c, s, records[0]) + Logged(c, Written(c, s, records[0]), records[1..])
  }

  /** A file is reopened if and only if it is not open or was opened more than ten seconds ago. */
  lemma ReopensIff(s: State, time: nat)
    requires REOPEN_INTERVAL <= time < U32
    ensures Reopens(s, time) <==> !s.open || time > s.openTime + 10
  {
    assert (time - REOPEN_INTERVAL) % U32 == time - REOPEN_INTERVAL;
  }

  /** After preparing, the file is open exactly when the last fopen that was needed succeeded. */
  lemma PreparedOpenIff(c: Limits, s: State, time: nat, first: bool, second: bool)
    requires c.maxFile >= 1
    ensures var opens := Reopens(s, time);
            var size := if opens then |Get(s.files, 0)| else s.size;
            Prepared(c, s, time, first, second).open <==> (opens ==> first) && (size >= c.maxSize ==> second)
  {
  }

  /** Nothing is dropped while files can be opened: everything written is logged, in order. */
  lemma {:induction false} EverythingLogged(c: Limits, s: State, records: seq<Record>)
    requires c.maxFile >= 1 && forall i :: 0 <= i < |records| ==> records[i].first && records[i].second
    ensures Logged(c, s, records) == Flatten(seq(|records|, i requires 0 <= i < |records| => records[i].content))
    decreases |records|
  {
    var contents := seq(|records|, i requires 0 <= i < |records| => records[i].content);
    if records != [] {
      var rest := records[1..];
      PreparedOpenIff(c, s, records[0].time, true, true);
      EverythingLogged(c, Written(c, s, records[0]), rest);
      assert contents[1..] == seq(|rest|, i requires 0 <= i < |rest| => rest[i].content);
    }
  }

  // ------------------------------------------------------------- conservation

  /** Everything ever in the log, oldest first. */
  ghost function History(c: Limits, s: State): Text {
    s.lost + Log(s.files, c.maxFile)
  }

  lemma {:induction false} LogFrame(files: Files, more: Files, n: nat)
    requires forall i: nat :: i < n ==> Get(files, i) == Get(more, i)
    ensures Log(files, n) == Log(more, n)
  {
    if n > 0 {
      LogFrame(files, more, n - 1);
    }
  }

  lemma OpenedKeeps(c: Limits, s: State, time: nat, ok: bool)
    ensures SizeKnown(Opened(s, time, ok)) && History(c, Opened(s, time, ok)) == History(c, s)
    ensures Opened(s, time, ok).lost == s.lost
  {
    var t := Opened(s, time, ok);
    assert forall i: nat :: Get(s.files, i) == Get(t.files, i);
    LogFrame(s.files, t.files, c.maxFile);
  }

  /** Preparing keeps the history, and an open file after it has room: its size is below the limit. */
  lemma PreparedKeeps(c: Limits, s: State, time: nat, first: bool, second: bool)
    requires Usable(c) && SizeKnown(s)
    ensures var t := Prepared(c, s, time, first, second);
            SizeKnown(t) && History(c, t) == History(c, s) && (t.open ==> t.size < c.maxSize)
  {
    var t := if Reopens(s, time) then Opened(s, time, first) else s;
    OpenedKeeps(c, s, time, first);
    if t.open && t.size >= c.maxSize {
      var oldest := Get(t.files, c.maxFile - 1);
      var u := t.(open := false, files := Rotated(t.files, c.maxFile), lost := t.lost + oldest);
      RotationLosesOldest(t.files, c.maxFile);
      RotatedAt(t.files, c.maxFile, 0);
      ConcatAssociates(t.lost, oldest, Log(u.files, c.maxFile));
      OpenedKeeps(c, u, time, second);
    }
  }

  lemma {:induction false} AppendToCurrent(files: Files, content: Text, n: nat)
    requires n >= 1
    ensures Log(files[0 := Get(files, 0) + content], n) == Log(files, n) + content
  {
    var more := files[0 := Get(files, 0) + content];
    if n == 1 {
      assert Log(more, 1) == Get(more, 0) + Log(more, 0) && Log(files, 1) == Get(files, 0) + Log(files, 0);
    } else {
      AppendToCurrent(files, content, n - 1);
      ConcatAssociates(Get(files, n - 1), Log(files, n - 1), content);
    }
  }

  lemma WrittenKeeps(c: Limits, s: State, r: Record)
    requires Usable(c) && SizeKnown(s)
    ensures SizeKnown(Written(c, s, r)) && History(c, Written(c, s, r)) == History(c, s) + Accepted(c, s, r)
  {
    PreparedKeeps(c, s, r.time, r.first, r.second);
    var t := Prepared(c, s, r.time, r.first, r.second);
    if t.open {
      AppendToCurrent(t.files, r.content, c.maxFile);
      ConcatAssociates(t.lost, Log(t.files, c.maxFile), r.content);
    }
  }

  lemma {:induction false} RunKeeps(c: Limits, s: State, records: seq<Record>)
    requires Usable(c) && SizeKnown(s)
    ensures SizeKnown(Run(c, s, records))
    ensures History(c, Run(c, s, records)) == History(c, s) + Logged(c, s, records)
    decreases |records|
  {
    if records != [] {
      WrittenKeeps(c, s, records[0]);
      RunKeeps(c, Written(c, s, records[0]), records[1..]);
      ConcatAssociates(History(c, s), Accepted(c, s, records[0]), Logged(c, Written(c, s, records[0]), records[1..]));
    }
  }

  ghost predicate IsSuffix(part: Text, whole: Text) {
    |part| <= |whole| && part == whole[|whole| - |part|..]
  }

  /**
   Rotation loses only the oldest data: over any run of writes, whatever files were there at the start and whichever
   opens fail, the rolled files from the highest index down to 0 hold a suffix of everything that was in them and
   everything logged since; and the recorded size is the current file's length.
   */
  lemma RotationKeepsSuffix(c: Limits, files: Files, records: seq<Record>)
    requires Usable(c)
    ensures var start := State(files, false, 0, 0, []);
            var s := Run(c, start, records);
            && IsSuffix(Log(s.files, c.maxFile), Log(files, c.maxFile) + Logged(c, start, records))
            && (s.open ==> 0 in s.files && s.size == |s.files[0]|)
  {
    var start := State(files, false, 0, 0, []);
    RunKeeps(c, start, records);
    var s := Run(c, start, records);
    assert [] + Log(files, c.maxFile) == Log(files, c.maxFile);
    assert History(c, s)[|s.lost|..] == Log(s.files, c.maxFile);
  }

  // ---------------------------------------------------------------- retention

  /** Rolled files are full, there are no gaps among them, and data was lost only once they were all there. */
  ghost predicate Retains(c: Limits, s: State) {
    && (forall i :: 1 <= i < c.maxFile && i in s.files ==> |s.files[i]| >= c.maxSize)
    && (forall i :: 2 <= i < c.maxFile && i in s.files ==> i - 1 in s.files)
    && (s.lost != [] ==> forall i :: 1 <= i < c.maxFile ==> i in s.files)
  }

  lemma {:induction false} NoGaps(c: Limits, s: State, from: nat)
    requires Retains(c, s) && 1 <= from < c.maxFile && from in s.files
    ensures forall i :: 1 <= i <= from ==> i in s.files
  {
    if from > 1 {
      NoGaps(c, s, from - 1);
    }
  }

  lemma RollRetains(c: Limits, t: State, u: State)
    requires Usable(c) && Retains(c, t) && 0 in t.files && |t.files[0]| >= c.maxSize
    requires u.files == Rotated(t.files, c.maxFile) && u.lost == t.lost + Get(t.files, c.maxFile - 1)
    ensures Retains(c, u)
  {
    forall i | 1 <= i < c.maxFile && i in u.files ensures |u.files[i]| >= c.maxSize {
      RotatedAt(t.files, c.maxFile, i);
    }
    forall i | 2 <= i < c.maxFile && i in u.files ensures i - 1 in u.files {
      RotatedAt(t.files, c.maxFile, i);
      RotatedAt(t.files, c.maxFile, i - 1);
    }
    if u.lost != [] {
      if c.maxFile > 1 && c.maxFile - 1 in t.files {
        NoGaps(c, t, c.maxFile - 1);
      }
      forall i | 1 <= i < c.maxFile ensures i in u.files {
        RotatedAt(t.files, c.maxFile, i);
      }
    }
  }

  lemma OpenedRetains(c: Limits, s: State, time: nat, ok: bool)
    requires Retains(c, s)
    ensures Retains(c, Opened(s, time, ok))
  {
  }

  lemma PreparedRetains(c: Limits, s: State, time: nat, first: bool, second: bool)
    requires Usable(c) && SizeKnown(s) && Retains(c, s)
    ensures Retains(c, Prepared(c, s, time, first, second))
  {
    var t := if Reopens(s, time) then Opened(s, time, first) else s;
    assert SizeKnown(t) by {
      OpenedKeeps(c, s, time, first);
    }
    assert Retains(c, t) by {
      OpenedRetains(c, s, time, first);
    }
    if t.open && t.size >= c.maxSize {
      var oldest := Get(t.files, c.maxFile - 1);
      var u := t.(open := false, files := Rotated(t.files, c.maxFile), lost := t.lost + oldest);
      RollRetains(c, t, u);
      OpenedRetains(c, u, time, second);
    }
  }

  lemma {:induction false} RunRetains(c: Limits, s: State, records: seq<Record>)
    requires Usable(c) && SizeKnown(s) && Retains(c, s)
    ensures Retains(c, Run(c, s, records))
    decreases |records|
  {
    if records != [] {
      WrittenKeeps(c, s, records[0]);
      PreparedRetains(c, s, records[0].time, records[0].first, records[0].second);
      RunRetains(c, Written(c, s, records[0]), records[1..]);
    }
  }

  lemma {:induction false} FullFiles(files: Files, maxSize: nat, n: nat)
    requires n >= 1 && forall i :: 1 <= i < n ==> i in files && |files[i]| >= maxSize
    ensures |Log(files, n)| >= (n - 1) * maxSize
  {
    if n > 1 {
      FullFiles(files, maxSize, n - 1);
      assert (n - 1) * maxSize == (n - 2) * maxSize + maxSize;
    }
  }

  /**
   And it keeps enough: starting from an empty directory, once anything has been lost the rolled files hold at least
   maxFile - 1 full files of the most recent data.
   */
  lemma RotationRetainsRecent(c: Limits, records: seq<Record>)
    requires Usable(c)
    ensures var s := Run(c, State(map[], false, 0, 0, []), records);
            s.lost != [] ==> |Log(s.files, c.maxFile)| >= (c.maxFile - 1) * c.maxSize
  {
    RunRetains(c, State(map[], false, 0, 0, []), records);
    var s := Run(c, State(map[], false, 0, 0, []), records);
    if s.lost != [] {
      FullFiles(s.files, c.maxSize, c.maxFile);
    }
  }

  // --------------------------------------------------------------- the class

  class RollLog {
    const limits: Limits
    /** The rolled files on disk. */
    var files: Files
    var open: bool
    var fileSize: nat
    var openTime: nat

    ghost function View(lost: Text): State
      reads this
    {
      State(files, open, fileSize, openTime, lost)
    }

    constructor (limits: Limits, files: Files)
      ensures this.limits == limits && View([]) == State(files, false, 0, 0, [])
    {
      this.limits, this.files := limits, files;
      open, fileSize, openTime := false, 0, 0;
    }

    /** The remove and the rename loop. */
    static method Roll(files: Files, maxFile: nat) returns (r: Files)
      requires maxFile >= 1
      ensures r == Rotated(files, maxFile)
    {
      r := files - {maxFile - 1};
      var i: int := maxFile - 2;
      while i >= 0
        invariant -1 <= i && MovedDown(r, i) == Rotated(files, maxFile)
        decreases i
      {
        r := Moved(r, i);
        i := i - 1;
      }
    }

    method Reopen(time: nat, ok: bool, ghost lost: Text)
      modifies this
      ensures View(lost) == Opened(old(View(lost)), time, ok)
    {
      openTime := time;
      open := ok;
      if ok {
        files := files[0 := Get(files, 0)];
        fileSize := |files[0]|;
      }
    }

    /** prepareLogFile. */
    method PrepareLogFile(time: nat, first: bool, second: bool, ghost lost: Text)
        returns (ok: bool, ghost nowLost: Text)
      requires Usable(limits)
      modifies this
      ensures View(nowLost) == Prepared(limits, old(View(lost)), time, first, second) && ok == open
    {
      nowLost := lost;
      if !open || (time - REOPEN_INTERVAL) % U32 > openTime {
        Reopen(time, first, lost);
        if !open {
          return false, lost;
        }
      }
      if fileSize < limits.maxSize {
        return true, lost;
      }
      nowLost := lost + Get(files, limits.maxFile - 1);
      open := false;
      files := Roll(files, limits.maxFile);
      Reopen(time, second, nowLost);
      ok := open;
    }

    /** writeLog. */
    method WriteLog(r: Record, ghost lost: Text) returns (ghost nowLost: Text)
      requires Usable(limits)
      modifies this
      ensures View(nowLost) == Written(limits, old(View(lost)), r)
    {
      var ok;
      ok, nowLost := PrepareLogFile(r.time, r.first, r.second, lost);
      if ok {
        files := files[0 := Get(files, 0) + r.content];
        fileSize := fileSize + |r.content|;
      }
    }
  }
}
