/** The line logger behind rsync's output: whatever way a byte stream is cut into Write calls,
    the lines logged and the bytes kept back are those of one split of the whole stream. */
module LineLogger {

  predicate HasNewline(s: string) { exists i :: 0 <= i < |s| && s[i] == '\n' }

  /** Index of the first newline, or the length. */
  function FirstNewline(s: string): (i: nat)
    ensures i <= |s|
    ensures forall k :: 0 <= k < i ==> s[k] != '\n'
    ensures i < |s| ==> s[i] == '\n'
  {
    if s == [] || s[0] == '\n' then 0 else 1 + FirstNewline(s[1..])
  }

  /** The complete lines of a stream, without their newlines. */
  function Lines(s: string): (lines: seq<string>)
    decreases |s|
  {
    var i := FirstNewline(s);
    if i == |s| then [] else [s[..i]] + Lines(s[i + 1..])
  }

  /** What follows the last newline. */
  function Rest(s: string): (rest: string)
    decreases |s|
  {
    var i := FirstNewline(s);
    if i == |s| then s else Rest(s[i + 1..])
  }

  /** strings.TrimRight with a set of characters. */
  function TrimRight(s: string, cutset: set<char>): (t: string)
    ensures t <= s && (t != [] ==> t[|t| - 1] !in cutset)
    ensures forall k :: |t| <= k < |s| ==> s[k] in cutset
  {
    if s != [] && s[|s| - 1] in cutset then TrimRight(s[..|s| - 1], cutset) else s
  }

  /** The logged form of complete lines: carriage returns trimmed, empty lines dropped. */
  function Shown(lines: seq<string>): (shown: seq<string>) {
    if lines == [] then []
    else (if TrimRight(lines[0], {'\r'}) == "" then [] else [TrimRight(lines[0], {'\r'})]) + Shown(lines[1..])
  }

  function Unlines(lines: seq<string>): (s: string) {
    if lines == [] then [] else lines[0] + "\n" + Unlines(lines[1..])
  }

  /** Splitting loses nothing: the lines, each with its newline, and the rest are the stream. */
  lemma {:induction false} SplitJoins(s: string)
    ensures Unlines(Lines(s)) + Rest(s) == s
    decreases |s|
  {
    var i := FirstNewline(s);
    if i < |s| {
      SplitJoins(s[i + 1..]);
      FirstLineJoins(s[..i], Lines(s[i + 1..]), Rest(s[i + 1..]));
      CutAtNewline(s, i);
    }
  }

  lemma {:induction false} FirstLineJoins(line: string, lines: seq<string>, rest: string)
    ensures Unlines([line] + lines) + rest == line + "\n" + (Unlines(lines) + rest)
  {
    UnlinesCons(line, lines);
    Assoc(line + "\n", Unlines(lines), rest);
  }

  lemma {:induction false} CutAtNewline(s: string, i: nat)
    requires i < |s| && s[i] == '\n'
    ensures s == s[..i] + "\n" + s[i + 1..]
  {}

  /** No piece holds a newline. */
  lemma {:induction false} PiecesAreClean(s: string)
    ensures !HasNewline(Rest(s))
    ensures forall line :: line in Lines(s) ==> !HasNewline(line)
    decreases |s|
  {
    var i := FirstNewline(s);
    if i < |s| {
      PiecesAreClean(s[i + 1..]);
      assert !HasNewline(s[..i]);
    }
  }

  lemma {:induction false} UnlinesCons(line: string, lines: seq<string>)
    ensures Unlines([line] + lines) == line + "\n" + Unlines(lines)
  {
    assert ([line] + lines)[1..] == lines;
  }

  lemma {:induction false} Assoc<T>(x: seq<T>, y: seq<T>, z: seq<T>)
    ensures x + y + z == x + (y + z)
  {}

  lemma {:induction false} FirstNewlineConcat(a: string, b: string)
    ensures FirstNewline(a + b) == if FirstNewline(a) < |a| then FirstNewline(a) else |a| + FirstNewline(b)
  {
    if a == [] {
      assert a + b == b;
    } else {
      assert (a + b)[1..] == a[1..] + b;
      if a[0] != '\n' { FirstNewlineConcat(a[1..], b); }
    }
  }

  lemma {:induction false} FirstLine(s: string)
    requires FirstNewline(s) < |s|
    ensures var i := FirstNewline(s); Lines(s) == [s[..i]] + Lines(s[i + 1..]) && Rest(s) == Rest(s[i + 1..])
  {}

  lemma {:induction false} CutConcat(a: string, b: string, i: nat)
    requires i < |a|
    ensures (a + b)[..i] == a[..i] && (a + b)[i + 1..] == a[i + 1..] + b
  {}

  lemma {:induction false} NoLine(a: string)
    requires FirstNewline(a) == |a|
    ensures Lines(a) == [] && Rest(a) == a
  {}

  lemma {:induction false} Nothing<T>(s: seq<T>)
    ensures [] + s == s
  {}

  /** Splitting a stream in two steps, the rest of the first carried over to the second. */
  lemma {:induction false} SplitConcat(a: string, b: string)
    ensures Lines(a + b) == Lines(a) + Lines(Rest(a) + b)
    ensures Rest(a + b) == Rest(Rest(a) + b)
    decreases |a|
  {
    hide Lines, Rest, FirstNewline;
    var i := FirstNewline(a);
    FirstNewlineConcat(a, b);
    if i < |a| {
      var tail := a[i + 1..];
      SplitConcat(tail, b);
      CutConcat(a, b, i);
      FirstLine(a);
      FirstLine(a + b);
      Assoc([a[..i]], Lines(tail), Lines(Rest(tail) + b));
    } else {
      NoLine(a);
      Nothing(Lines(a + b));
    }
  }

  lemma {:induction false} ShownConcat(a: seq<string>, b: seq<string>)
    ensures Shown(a + b) == Shown(a) + Shown(b)
  {
    if a == [] {
      assert a + b == b;
    } else {
      assert (a + b)[1..] == a[1..] + b;
      ShownConcat(a[1..], b);
    }
  }

  /** One line is logged up to its last character that is no carriage return, and not at all if
      it has none. With ShownConcat this says what any number of lines log. */
  lemma {:induction false} ShownOne(line: string)
    ensures (forall k :: 0 <= k < |line| ==> line[k] == '\r') ==> Shown([line]) == []
    ensures (exists k :: 0 <= k < |line| && line[k] != '\r') ==>
              && |Shown([line])| == 1
              && var shown := Shown([line])[0];
                 shown != "" && shown <= line && shown[|shown| - 1] != '\r' && forall k :: |shown| <= k < |line| ==> line[k] == '\r'
  {
    var t := TrimRight(line, {'\r'});
    assert [line][1..] == [] && Shown([]) == [];
    assert Shown([line]) == if t == "" then [] else [t];
    if t != "" { assert line[|t| - 1] == t[|t| - 1]; }
  }

  /** Logging the first complete line and dropping it leaves the outcome as it was. */
  lemma {:induction false} TakeLine(buf: string, log: seq<string>)
    requires FirstNewline(buf) < |buf|
    ensures var i := FirstNewline(buf); var line := TrimRight(buf[..i], {'\r'});
            && Rest(buf) == Rest(buf[i + 1..])
            && log + Shown(Lines(buf)) == (if line != "" then log + [line] else log) + Shown(Lines(buf[i + 1..]))
  {
    var i := FirstNewline(buf);
    var line := TrimRight(buf[..i], {'\r'});
    var tail := Lines(buf[i + 1..]);
    assert ([buf[..i]] + tail)[1..] == tail;
    assert log + ([line] + Shown(tail)) == log + [line] + Shown(tail);
    assert [] + Shown(tail) == Shown(tail);
  }

  predicate IsBlank(c: char) { c == '\r' || c == '\n' || c == ' ' }

  predicate Blank(s: string) { forall k :: 0 <= k < |s| ==> IsBlank(s[k]) }

  /** `line` is `s` without what is blank at its end. */
  predicate IsTrimmed(s: string, line: string) {
    line != "" && line <= s && !IsBlank(line[|line| - 1]) && Blank(s[|line|..])
  }

  // ---------- the writer ----------

  class Logger {
    var buf: string
    var log: seq<string>

    constructor ()
      ensures buf == "" && log == []
    {
      buf := "";
      log := [];
    }

    method Write(p: string) returns (n: nat)
      modifies this
      ensures n == |p|
      ensures log == old(log) + Shown(Lines(old(buf) + p))
      ensures buf == Rest(old(buf) + p)
    {
      buf := buf + p;
      ghost var stream := buf;
      assert log + Shown(Lines(buf)) == old(log) + Shown(Lines(stream));
      while true
        invariant log + Shown(Lines(buf)) == old(log) + Shown(Lines(stream))
        invariant Rest(buf) == Rest(stream)
        decreases |buf|
      {
        var i := IndexByte(buf);
        if i == |buf| { break; }
        TakeLine(buf, log);
        var line := TrimRight(buf[..i], {'\r'});
        if line != "" { log := log + [line]; }
        buf := buf[i + 1..];
      }
      assert Lines(buf) == [] && log + [] == log;
      n := |p|;
    }

    static method IndexByte(s: string) returns (i: nat)
      ensures i == FirstNewline(s)
    {
      i := 0;
      while i < |s| && s[i] != '\n'
        invariant 0 <= i <= |s| && FirstNewline(s) == i + FirstNewline(s[i..])
      {
        i := i + 1;
      }
    }

    /** Logs the leftover up to its last character that is not a line end or a space, if it has
        one, and nothing else. */
    method Flush()
      modifies this`log
      ensures Blank(buf) ==> log == old(log)
      ensures !Blank(buf) ==> |log| == |old(log)| + 1 && log[..|old(log)|] == old(log) && IsTrimmed(buf, log[|old(log)|])
    {
      var line := TrimRight(buf, {'\r', '\n', ' '});
      if line != "" { log := log + [line]; }
    }
  }

  // ---------- chunking ----------

  datatype State = State(log: seq<string>, buf: string)

  /** One Write, as its contract gives it. */
  function Fed(s: State, p: string): (s': State) {
    State(s.log + Shown(Lines(s.buf + p)), Rest(s.buf + p))
  }

  function FedAll(s: State, chunks: seq<string>): (s': State)
    decreases |chunks|
  {
    if chunks == [] then s else FedAll(Fed(s, chunks[0]), chunks[1..])
  }

  function Concat(chunks: seq<string>): (s: string) {
    if chunks == [] then [] else chunks[0] + Concat(chunks[1..])
  }

  lemma {:induction false} ShownTwice(a: string, q: string)
    ensures Shown(Lines(a + q)) == Shown(Lines(a)) + Shown(Lines(Rest(a) + q))
    ensures Rest(a + q) == Rest(Rest(a) + q)
  {
    SplitConcat(a, q);
    ShownConcat(Lines(a), Lines(Rest(a) + q));
  }

  /** Two writes are one write of both chunks. */
  lemma {:induction false} FedTwice(s: State, p: string, q: string)
    ensures Fed(Fed(s, p), q) == Fed(s, p + q)
  {
    ShownTwice(s.buf + p, q);
    Assoc(s.buf, p, q);
    Assoc(s.log, Shown(Lines(s.buf + p)), Shown(Lines(Rest(s.buf + p) + q)));
  }

  lemma {:induction false} FedNothing(s: State)
    requires !HasNewline(s.buf)
    ensures Fed(s, "") == s
  {
    assert s.buf + "" == s.buf && FirstNewline(s.buf) == |s.buf|;
    assert s.log + [] == s.log;
  }

  lemma {:induction false} FedAllIsBatch(s: State, chunks: seq<string>)
    requires !HasNewline(s.buf)
    ensures FedAll(s, chunks) == Fed(s, Concat(chunks))
    ensures !HasNewline(FedAll(s, chunks).buf)
    decreases |chunks|
  {
    if chunks == [] {
      FedNothing(s);
    } else {
      PiecesAreClean(s.buf + chunks[0]);
      FedAllIsBatch(Fed(s, chunks[0]), chunks[1..]);
      FedTwice(s, chunks[0], Concat(chunks[1..]));
    }
  }

  /** For every way of cutting a stream into Write calls on a new logger, the logged lines and
      the leftover are those of the whole stream, and the leftover holds no newline. */
  lemma {:induction false} ChunkingDoesNotMatter(chunks: seq<string>, other: seq<string>)
    requires Concat(chunks) == Concat(other)
    ensures FedAll(State([], ""), chunks) == State(Shown(Lines(Concat(chunks))), Rest(Concat(chunks)))
    ensures FedAll(State([], ""), chunks) == FedAll(State([], ""), other)
    ensures !HasNewline(FedAll(State([], ""), chunks).buf)
  {
    FedAllIsBatch(State([], ""), chunks);
    FedAllIsBatch(State([], ""), other);
    assert "" + Concat(chunks) == Concat(chunks);
    assert [] + Shown(Lines(Concat(chunks))) == Shown(Lines(Concat(chunks)));
  }
}
