/** model.Slug: the loop that turns a client name into a file-system safe name, against its
    meaning: the maximal alphanumeric runs of the lowercased name, joined by single hyphens. */
module Slug {

  predicate Alnum(c: char) {
    'a' <= c <= 'z' || '0' <= c <= '9'
  }

  /** Go's rune-wise lowercasing, as far as the slug depends on it. */
  ghost predicate Lowers(lower: char -> char) {
    forall c :: Alnum(c) || c == '-' ==> lower(c) == c
  }

  function Lowered(s: string, lower: char -> char): (t: string)
    ensures |t| == |s|
  {
    if s == [] then [] else [lower(s[0])] + Lowered(s[1..], lower)
  }

  /** Lowercasing goes character by character. */
  lemma {:induction false} LoweredAt(s: string, lower: char -> char, k: nat)
    requires k < |s|
    ensures Lowered(s, lower)[k] == lower(s[k])
  {
    if k > 0 { LoweredAt(s[1..], lower, k - 1); }
  }

  // ---------- the meaning ----------

  function RunLength(s: string): (n: nat)
    ensures n <= |s|
    ensures forall k :: 0 <= k < n ==> Alnum(s[k])
    ensures n < |s| ==> !Alnum(s[n])
  {
    if s == [] || !Alnum(s[0]) then 0 else 1 + RunLength(s[1..])
  }

  /** The maximal alphanumeric runs, in order. */
  function Runs(s: string): (runs: seq<string>)
    decreases |s|
  {
    if s == [] then []
    else if !Alnum(s[0]) then Runs(s[1..])
    else [s[..RunLength(s)]] + Runs(s[RunLength(s)..])
  }

  function Join(runs: seq<string>): (s: string) {
    if runs == [] then ""
    else if |runs| == 1 then runs[0]
    else runs[0] + "-" + Join(runs[1..])
  }

  ghost predicate AreRuns(runs: seq<string>) {
    forall k :: 0 <= k < |runs| ==> runs[k] != [] && forall j :: 0 <= j < |runs[k]| ==> Alnum(runs[k][j])
  }

  // ---------- the loop ----------

  /** What the loop still writes, given whether a hyphen was the last thing written. */
  function Emit(prevHyphen: bool, s: string): (out: string)
    decreases |s|
  {
    if s == [] then []
    else if Alnum(s[0]) then [s[0]] + Emit(false, s[1..])
    else if !prevHyphen then ['-'] + Emit(true, s[1..])
    else Emit(true, s[1..])
  }

  /** strings.TrimRight(s, "-") */
  function TrimHyphens(s: string): (t: string)
    ensures t <= s
  {
    if s != [] && s[|s| - 1] == '-' then TrimHyphens(s[..|s| - 1]) else s
  }

  method SlugOf(name: string, lower: char -> char) returns (slug: string)
    ensures slug == Join(Runs(Lowered(name, lower)))
  {
    var b := "";
    var prevHyphen := true;
    var s := ToLower(name, lower);
    var i := 0;
    while i < |s|
      invariant 0 <= i <= |s|
      invariant b + Emit(prevHyphen, s[i..]) == Emit(true, s)
    {
      var r := s[i];
      assert s[i..][0] == r && s[i..][1..] == s[i + 1..];
      if Alnum(r) {
        b := b + [r];
        prevHyphen := false;
      } else if !prevHyphen {
        b := b + ['-'];
        prevHyphen := true;
      }
      i := i + 1;
    }
    assert b == Emit(true, s);
    EmitIsJoin(s);
    slug := TrimHyphens(b);
  }

  method ToLower(name: string, lower: char -> char) returns (s: string)
    ensures s == Lowered(name, lower)
  {
    s := "";
    var i := 0;
    while i < |name|
      invariant 0 <= i <= |name| && s + Lowered(name[i..], lower) == Lowered(name, lower)
    {
      s := s + [lower(name[i])];
      i := i + 1;
    }
  }

  // ---------- the loop writes the joined runs ----------

  lemma {:induction false} EmitRun(s: string)
    requires s != [] && Alnum(s[0])
    ensures Emit(true, s) == s[..RunLength(s)] + Emit(false, s[RunLength(s)..])
    ensures Emit(false, s) == Emit(true, s)
  {
    var n := RunLength(s);
    if n == 1 || s[1..] == [] || !Alnum(s[1]) {
      assert s[..n] == [s[0]] && s[n..] == s[1..];
    } else {
      EmitRun(s[1..]);
      assert s[..n] == [s[0]] + s[1..][..n - 1] && s[n..] == s[1..][n - 1..];
    }
  }

  lemma {:induction false} TrimBehindRun(run: string, out: string)
    requires run != [] && Alnum(run[|run| - 1])
    ensures TrimHyphens(run + out) == run + TrimHyphens(out)
  {
    if out == [] {
      assert run + out == run;
    } else {
      assert (run + out)[..|run + out| - 1] == run + out[..|out| - 1];
      if out[|out| - 1] == '-' { TrimBehindRun(run, out[..|out| - 1]); }
    }
  }

  lemma {:induction false} EmitIsJoin(s: string)
    ensures TrimHyphens(Emit(true, s)) == Join(Runs(s))
    ensures Runs(s) == [] ==> Emit(true, s) == []
    ensures Runs(s) != [] ==> Emit(true, s) != [] && Alnum(Emit(true, s)[0])
    decreases |s|
  {
    if s != [] {
      if !Alnum(s[0]) {
        EmitIsJoin(s[1..]);
      } else {
        var n := RunLength(s);
        var run, rest := s[..n], s[n..];
        EmitRun(s);
        if rest == [] {
          TrimBehindRun(run, []);
          assert run + [] == run && Runs(rest) == [];
          assert Runs(s) == [run];
        } else {
          var tail := rest[1..];
          EmitIsJoin(tail);
          assert Runs(s) == [run] + Runs(tail) && Emit(false, rest) == ['-'] + Emit(true, tail);
          TrimBehindRun(run, ['-'] + Emit(true, tail));
          if Runs(tail) == [] {
            assert (['-'] + Emit(true, tail))[..0] == [] && TrimHyphens([]) == [];
            assert TrimHyphens(['-'] + Emit(true, tail)) == [];
            assert run + [] == run;
          } else {
            assert ([run] + Runs(tail))[1..] == Runs(tail);
            TrimBehindHyphen(Emit(true, tail));
            assert run + (['-'] + Join(Runs(tail))) == run + "-" + Join(Runs(tail));
          }
        }
      }
    }
  }

  /** A leading hyphen survives if something alphanumeric follows. */
  lemma {:induction false} TrimBehindHyphen(out: string)
    requires out != [] && Alnum(out[0])
    ensures TrimHyphens(['-'] + out) == ['-'] + TrimHyphens(out)
  {
    assert (['-'] + out)[..|out|] == ['-'] + out[..|out| - 1];
    if out[|out| - 1] == '-' { TrimBehindHyphen(out[..|out| - 1]); }
  }

  // ---------- idempotence ----------

  lemma {:induction false} RunsAreRuns(s: string)
    ensures AreRuns(Runs(s))
    decreases |s|
  {
    if s != [] {
      if !Alnum(s[0]) { RunsAreRuns(s[1..]); } else { RunsAreRuns(s[RunLength(s)..]); }
    }
  }

  lemma {:induction false} RunLengthOf(run: string, rest: string)
    requires forall j :: 0 <= j < |run| ==> Alnum(run[j])
    requires rest == [] || !Alnum(rest[0])
    ensures RunLength(run + rest) == |run|
  {
    if run == [] {
      assert run + rest == rest;
    } else {
      assert (run + rest)[1..] == run[1..] + rest;
      RunLengthOf(run[1..], rest);
    }
  }

  /** The joined runs split back into the same runs. */
  lemma {:induction false} RunsOfJoin(runs: seq<string>)
    requires AreRuns(runs)
    ensures Runs(Join(runs)) == runs
  {
    if |runs| == 1 {
      RunLengthOf(runs[0], []);
      assert runs[0] + [] == runs[0] && runs[0][|runs[0]|..] == [] && Runs([]) == [];
    } else if |runs| > 1 {
      var rest := Join(runs[1..]);
      RunsOfJoin(runs[1..]);
      var s := Join(runs);
      assert s == runs[0] + ("-" + rest);
      RunLengthOf(runs[0], "-" + rest);
      assert s[..|runs[0]|] == runs[0] && s[|runs[0]|..] == "-" + rest && ("-" + rest)[1..] == rest;
      assert Runs("-" + rest) == Runs(rest);
    }
  }

  /** Slugs are made of lowercase letters, digits and single inner hyphens. */
  lemma {:induction false} JoinAlphabet(runs: seq<string>)
    requires AreRuns(runs)
    ensures forall k :: 0 <= k < |Join(runs)| ==> Alnum(Join(runs)[k]) || Join(runs)[k] == '-'
    ensures Join(runs) != [] ==> Alnum(Join(runs)[0]) && Alnum(Join(runs)[|Join(runs)| - 1])
    ensures forall k :: 0 < k < |Join(runs)| ==> Join(runs)[k - 1] != '-' || Join(runs)[k] != '-'
    ensures Join(runs) == [] <==> runs == []
  {
    if |runs| > 1 {
      JoinAlphabet(runs[1..]);
      var s, t := Join(runs), Join(runs[1..]);
      var n := |runs[0]|;
      assert s == runs[0] + "-" + t;
      assert forall k :: n < k < |s| ==> s[k] == t[k - n - 1];
    }
  }

  lemma {:induction false} LoweredFixed(s: string, lower: char -> char)
    requires Lowers(lower) && forall k :: 0 <= k < |s| ==> Alnum(s[k]) || s[k] == '-'
    ensures Lowered(s, lower) == s
  {
    if s != [] { LoweredFixed(s[1..], lower); }
  }

  /** Slug of a slug is the slug, and a slug is a clean file name. */
  lemma {:induction false} SlugIdempotent(name: string, lower: char -> char)
    requires Lowers(lower)
    ensures var slug := Join(Runs(Lowered(name, lower)));
            && Join(Runs(Lowered(slug, lower))) == slug
            && (forall k :: 0 <= k < |slug| ==> Alnum(slug[k]) || slug[k] == '-')
            && (slug != [] ==> Alnum(slug[0]) && Alnum(slug[|slug| - 1]))
            && (forall k :: 0 < k < |slug| ==> slug[k - 1] != '-' || slug[k] != '-')
  {
    var runs := Runs(Lowered(name, lower));
    RunsAreRuns(Lowered(name, lower));
    JoinAlphabet(runs);
    LoweredFixed(Join(runs), lower);
    RunsOfJoin(runs);
  }

  // ---------- what a slug keeps ----------

  /** The letters a to z and the digits of a string, in order. */
  function Kept(s: string): (t: string) {
    if s == [] then [] else KeptOne(s[0]) + Kept(s[1..])
  }

  function KeptOne(c: char): (t: string) { if 'a' <= c <= 'z' || '0' <= c <= '9' then [c] else [] }

  lemma {:induction false} Assoc(x: string, y: string, z: string)
    ensures x + y + z == x + (y + z)
  {}

  lemma {:induction false} KeptConcat(s: string, t: string)
    ensures Kept(s + t) == Kept(s) + Kept(t)
  {
    if s == [] {
      assert s + t == t;
    } else {
      assert (s + t)[1..] == s[1..] + t;
      KeptConcat(s[1..], t);
      Assoc(KeptOne(s[0]), Kept(s[1..]), Kept(t));
    }
  }

  lemma {:induction false} KeptJoin(runs: seq<string>)
    requires runs != []
    ensures Kept(Join(runs)) == Kept(runs[0]) + Kept(Join(runs[1..]))
  {
    if |runs| > 1 {
      var rest := Join(runs[1..]);
      KeptConcat(runs[0] + "-", rest);
      KeptConcat(runs[0], "-");
      assert "-"[1..] == [] && Kept("-") == [];
    }
  }

  lemma {:induction false} KeptRuns(s: string)
    ensures Kept(Join(Runs(s))) == Kept(s)
    decreases |s|
  {
    if s != [] {
      if !Alnum(s[0]) {
        KeptRuns(s[1..]);
      } else {
        var n := RunLength(s);
        KeptRuns(s[n..]);
        KeptConcat(s[..n], s[n..]);
        assert s == s[..n] + s[n..] && Runs(s)[0] == s[..n] && Runs(s)[1..] == Runs(s[n..]);
        KeptJoin(Runs(s));
      }
    }
  }

  /** A slug has the letters and digits of the lowercased name, all of them and in their order. */
  lemma {:induction false} SlugKeepsLetters(name: string, lower: char -> char)
    ensures Kept(Join(Runs(Lowered(name, lower)))) == Kept(Lowered(name, lower))
  {
    KeptRuns(Lowered(name, lower));
  }

  /** Letters, digits and single inner hyphens. */
  predicate Clean(s: string) {
    && (forall k :: 0 <= k < |s| ==> 'a' <= s[k] <= 'z' || '0' <= s[k] <= '9' || s[k] == '-')
    && (s != [] ==> s[0] != '-' && s[|s| - 1] != '-') && (forall k :: 0 < k < |s| ==> s[k - 1] != '-' || s[k] != '-')
  }

  lemma {:induction false} CleanTail(s: string, n: nat)
    requires Clean(s) && 0 < n < |s| && !Alnum(s[n])
    ensures n + 1 < |s| && s[n] == '-' && s[n + 1] != '-' && Clean(s[n + 1..])
  {
    var tail := s[n + 1..];
    assert forall k :: 0 <= k < |tail| ==> tail[k] == s[n + 1 + k];
  }

  lemma {:induction false} RunsSplit(s: string, n: nat)
    requires n == RunLength(s) && 0 < n < |s|
    ensures Runs(s) == [s[..n]] + Runs(s[n + 1..])
  {
    assert s[n..][1..] == s[n + 1..];
  }

  lemma {:induction false} JoinTwo(run: string, runs: seq<string>)
    requires Join(runs) != ""
    ensures Join([run] + runs) == run + "-" + Join(runs)
  {
    assert ([run] + runs)[1..] == runs;
  }

  lemma {:induction false} CutAtHyphen(s: string, n: nat)
    requires n < |s| && s[n] == '-'
    ensures s == s[..n] + "-" + s[n + 1..]
  {}

  lemma {:induction false} OneRun(s: string)
    requires s != [] && RunLength(s) == |s|
    ensures Join(Runs(s)) == s
  {
    assert s[..|s|] == s && s[|s|..] == [] && Runs(s) == [s];
  }

  lemma {:induction false} JoinedRuns(s: string)
    requires Clean(s)
    ensures Join(Runs(s)) == s
    decreases |s|
  {
    if s != [] {
      hide Clean, Runs, Join, RunLength;
      var n := RunLength(s);
      FirstIsRun(s);
      if n == |s| {
        OneRun(s);
      } else {
        var tail := s[n + 1..];
        CleanTail(s, n);
        JoinedRuns(tail);
        RunsSplit(s, n);
        JoinTwo(s[..n], Runs(tail));
        CutAtHyphen(s, n);
      }
    }
  }

  lemma {:induction false} FirstIsRun(s: string)
    requires Clean(s) && s != []
    ensures RunLength(s) > 0
  {}

  /** A name is its own slug exactly if it is made of the letters a to z, digits and single inner
      hyphens. */
  lemma {:induction false} SlugFixed(name: string, lower: char -> char)
    requires Lowers(lower)
    ensures Join(Runs(Lowered(name, lower))) == name <==> Clean(name)
  {
    if Clean(name) {
      LoweredFixed(name, lower);
      JoinedRuns(name);
    }
    SlugIdempotent(name, lower);
  }
}
