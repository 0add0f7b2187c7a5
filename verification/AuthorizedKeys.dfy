/** The authorized_keys file: one forced-command line per admitted client. The file reads back
    as exactly the admitted clients' commands and keys, in id order, and rejected rows have no
    influence on it. */
module AuthorizedKeys {
  import opened Slug
  import LineLogger

  datatype Mode = TarGz | Rsync | Other(name: string)

  datatype Client = Client(id: int, name: string, mode: Mode, enabled: bool, pubKey: string)

  /** `parses` is ssh.ParseAuthorizedKey, `baseDir` a clean absolute path. */
  datatype Env = Env(baseDir: string, lower: char -> char, parses: string -> bool)

  const HEADER_LINE: string := "# Managed by backitup. " + ("Do not edit; " + "regenerated from the database.")
  const PREFIX: string := "restrict,command=\""

  datatype Verdict = Ignored | Rejected(reason: string) | Admitted(command: string, key: string)

  datatype Skipped = Skipped(id: int, reason: string)

  // ---------- one client ----------

  /** unicode.IsSpace */
  predicate IsSpace(c: char) {
    c in {'\t', '\n', '\U{0B}', '\U{0C}', '\r', ' ', '\U{85}', '\U{A0}', '\U{1680}', '\U{2028}', '\U{2029}', '\U{202F}', '\U{205F}', '\U{3000}'} ||
    '\U{2000}' <= c <= '\U{200A}'
  }

  function TrimSpace(s: string): (t: string)
    ensures t != [] ==> !IsSpace(t[0]) && !IsSpace(t[|t| - 1])
    ensures forall c :: c in t ==> c in s
  {
    if s == [] then []
    else if IsSpace(s[0]) then TrimSpace(s[1..])
    else if IsSpace(s[|s| - 1]) then TrimSpace(s[..|s| - 1])
    else s
  }

  /** Only spaces go, and only at the ends. */
  lemma {:induction false} TrimSpaceTrims(s: string) returns (i: nat, j: nat)
    ensures i <= j <= |s| && TrimSpace(s) == s[i..j]
    ensures forall k :: 0 <= k < i || j <= k < |s| ==> IsSpace(s[k])
  {
    hide IsSpace;
    if s == [] {
      i, j := 0, 0;
    } else if IsSpace(s[0]) {
      i, j := TrimSpaceTrims(s[1..]);
      assert forall k :: 0 < k < |s| ==> s[k] == s[1..][k - 1];
      i, j := i + 1, j + 1;
    } else if IsSpace(s[|s| - 1]) {
      i, j := TrimSpaceTrims(s[..|s| - 1]);
    } else {
      i, j := 0, |s|;
    }
  }

  function Dir(env: Env, slug: string): (dir: string) {
    if slug == "" then env.baseDir else (if env.baseDir == "/" then "" else env.baseDir) + "/" + slug
  }

  function ForcedCommand(mode: Mode, dir: string): (command: string) {
    match mode
    case Rsync => "rrsync " + dir
    case TarGz => "backitup-recv " + dir
    case Other(_) => ""
  }

  predicate HasControl(key: string) { exists i :: 0 <= i < |key| && key[i] < ' ' }

  function InvalidPubKey(env: Env, key: string): (reason: string) {
    if '\n' in key || '\r' in key then "embedded newline"
    else if '\"' in key then "embedded quote"
    else if HasControl(key) then "control character"
    else if !env.parses(key) then "unparseable public key"
    else ""
  }

  function SlugFor(env: Env, name: string): (slug: string) { Join(Runs(Lowered(name, env.lower))) }

  /** What becomes of a row. */
  function Judge(env: Env, c: Client): (v: Verdict) {
    if !c.enabled || TrimSpace(c.pubKey) == "" then Ignored
    else if InvalidPubKey(env, c.pubKey) != "" then Rejected(InvalidPubKey(env, c.pubKey))
    else if c.mode.Other? then Rejected("unknown mode " + c.mode.name)
    else Admitted(ForcedCommand(c.mode, Dir(env, SlugFor(env, c.name))), TrimSpace(c.pubKey))
  }

  /** Which rows get a line: enabled ones with a key that is not blank, holds no character below
      the space and no quote, and parses, and with a known mode. */
  lemma {:induction false} AdmittedExactly(env: Env, c: Client)
    ensures Judge(env, c).Admitted? <==>
            && c.enabled && !c.mode.Other? && env.parses(c.pubKey)
            && (exists k :: 0 <= k < |c.pubKey| && !IsSpace(c.pubKey[k]))
            && (forall k :: 0 <= k < |c.pubKey| ==> c.pubKey[k] >= ' ' && c.pubKey[k] != '\"')
    ensures Judge(env, c).Ignored? <==> !c.enabled || forall k :: 0 <= k < |c.pubKey| ==> IsSpace(c.pubKey[k])
  {
    TrimBlank(c.pubKey);
    if forall k :: 0 <= k < |c.pubKey| ==> c.pubKey[k] >= ' ' && c.pubKey[k] != '\"' {
      assert '\n' !in c.pubKey && '\r' !in c.pubKey && '\"' !in c.pubKey && !HasControl(c.pubKey);
    } else {
      var k :| 0 <= k < |c.pubKey| && !(c.pubKey[k] >= ' ' && c.pubKey[k] != '\"');
      assert c.pubKey[k] == '\"' ==> '\"' in c.pubKey;
      assert HasControl(c.pubKey) || '\"' in c.pubKey;
      assert InvalidPubKey(env, c.pubKey) != "";
    }
  }

  /** The reason given for a rejected row: the first that applies. */
  lemma {:induction false} RejectedBecause(env: Env, c: Client)
    requires Judge(env, c).Rejected?
    ensures Judge(env, c).reason ==
            if '\n' in c.pubKey || '\r' in c.pubKey then "embedded newline"
            else if '\"' in c.pubKey then "embedded quote"
            else if exists k :: 0 <= k < |c.pubKey| && c.pubKey[k] < ' ' then "control character"
            else if !env.parses(c.pubKey) then "unparseable public key"
            else "unknown mode " + match c.mode case Other(name) => name case TarGz => "" case Rsync => ""
  {}

  predicate EndsWith(s: string, t: string) { |t| <= |s| && s[|s| - |t|..] == t }

  /** The client's own subdirectory of the base directory. */
  predicate SubdirectoryOf(dir: string, baseDir: string, slug: string) {
    && baseDir <= dir && EndsWith(dir, "/" + slug)
    && (baseDir != "/" ==> |dir| == |baseDir| + 1 + |slug|) && (baseDir == "/" ==> |dir| == 1 + |slug|)
  }

  lemma {:induction false} DirParts(env: Env, slug: string)
    ensures if slug == "" then Dir(env, slug) == env.baseDir else SubdirectoryOf(Dir(env, slug), env.baseDir, slug)
  {
    var base := if env.baseDir == "/" then "" else env.baseDir;
    if slug != "" {
      assert Dir(env, slug) == base + ("/" + slug);
      assert Dir(env, slug)[|base|..] == "/" + slug;
    }
  }

  lemma {:induction false} CommandParts(mode: Mode, dir: string)
    requires !mode.Other?
    ensures ForcedCommand(mode, dir) == if mode == Rsync then "rrsync " + dir else "backitup-recv " + dir
    ensures "rrsync " <= ForcedCommand(mode, dir) <==> mode == Rsync
    ensures "backitup-recv " <= ForcedCommand(mode, dir) <==> mode == TarGz
  {
    assert "rrsync "[0] != "backitup-recv "[0];
    assert ("rrsync " + dir)[0] == 'r' && ("backitup-recv " + dir)[0] == 'b';
  }

  /** What an admitted row's key may do: the command of the client's mode, on the subdirectory of
      the base directory that is named by the slug. Without letters and digits in its name the
      slug is empty, and the client is confined to the base directory only. */
  lemma {:induction false} AdmittedCommand(env: Env, c: Client) returns (dir: string)
    requires Judge(env, c).Admitted?
    ensures !c.mode.Other? && Judge(env, c).command == if c.mode == Rsync then "rrsync " + dir else "backitup-recv " + dir
    ensures SlugFor(env, c.name) != "" ==> SubdirectoryOf(dir, env.baseDir, SlugFor(env, c.name))
    ensures SlugFor(env, c.name) == "" ==> dir == env.baseDir
  {
    hide SubdirectoryOf, Dir, InvalidPubKey;
    dir := Dir(env, SlugFor(env, c.name));
    DirParts(env, SlugFor(env, c.name));
    CommandParts(c.mode, dir);
  }

  /** The key of an admitted row is printed without surrounding spaces, and otherwise as it is. */
  lemma {:induction false} AdmittedKey(env: Env, c: Client) returns (i: nat, j: nat)
    requires Judge(env, c).Admitted?
    ensures i < j <= |c.pubKey| && Judge(env, c).key == c.pubKey[i..j] && !IsSpace(c.pubKey[i]) && !IsSpace(c.pubKey[j - 1])
    ensures forall k :: 0 <= k < i || j <= k < |c.pubKey| ==> IsSpace(c.pubKey[k])
  {
    hide IsSpace, InvalidPubKey;
    i, j := TrimSpaceTrims(c.pubKey);
  }

  /** Two admitted clients have the same command exactly if their modes and the slugs of their
      names are the same; so clients with different slugs have different directories. */
  lemma {:induction false} CommandsApart(env: Env, c: Client, d: Client)
    requires Judge(env, c).Admitted? && Judge(env, d).Admitted?
    ensures Judge(env, c).command == Judge(env, d).command <==> c.mode == d.mode && SlugFor(env, c.name) == SlugFor(env, d.name)
  {
    hide InvalidPubKey, SlugFor, Dir, ForcedCommand;
    var s, t := SlugFor(env, c.name), SlugFor(env, d.name);
    DirsApart(env, s, t);
    CommandParts(c.mode, Dir(env, s));
    CommandParts(d.mode, Dir(env, t));
    CommandsDiffer(Dir(env, s), Dir(env, t));
  }

  lemma {:induction false} DirsApart(env: Env, s: string, t: string)
    ensures Dir(env, s) == Dir(env, t) <==> s == t
  {
    hide Dir, EndsWith;
    DirParts(env, s);
    DirParts(env, t);
    if s != "" && t != "" && Dir(env, s) == Dir(env, t) { SameEnding(Dir(env, s), s, t); }
  }

  lemma {:induction false} SameEnding(dir: string, s: string, t: string)
    requires EndsWith(dir, "/" + s) && EndsWith(dir, "/" + t) && |s| == |t|
    ensures s == t
  {
    assert ("/" + s)[1..] == s && ("/" + t)[1..] == t;
  }

  lemma {:induction false} CommandsDiffer(a: string, b: string)
    ensures "rrsync " + a == "rrsync " + b <==> a == b
    ensures "backitup-recv " + a == "backitup-recv " + b <==> a == b
    ensures "rrsync " + a != "backitup-recv " + b && "backitup-recv " + a != "rrsync " + b
  {
    assert ("rrsync " + a)[7..] == a && ("rrsync " + b)[7..] == b;
    assert ("backitup-recv " + a)[14..] == a && ("backitup-recv " + b)[14..] == b;
    assert ("rrsync " + a)[0] == 'r' && ("backitup-recv " + a)[0] == 'b' && ("rrsync " + b)[0] == 'r' && ("backitup-recv " + b)[0] == 'b';
  }

  lemma {:induction false} TrimBlank(s: string)
    ensures TrimSpace(s) == "" <==> forall k :: 0 <= k < |s| ==> IsSpace(s[k])
  {
    if s != [] {
      if IsSpace(s[0]) {
        TrimBlank(s[1..]);
        assert forall k :: 0 < k < |s| ==> s[k] == s[1..][k - 1];
      } else if IsSpace(s[|s| - 1]) {
        TrimBlank(s[..|s| - 1]);
        assert s[..|s| - 1][0] == s[0];
      }
    }
  }

  function LineFor(command: string, key: string): (line: string) {
    PREFIX + (command + ("\" " + key))
  }

  // ---------- the file ----------

  function Insert(x: Client, cs: seq<Client>): (r: seq<Client>) {
    if cs == [] || x.id <= cs[0].id then [x] + cs else [cs[0]] + Insert(x, cs[1..])
  }

  predicate SortedById(cs: seq<Client>) {
    forall i, j :: 0 <= i < j < |cs| ==> cs[i].id <= cs[j].id
  }

  function SortById(cs: seq<Client>): (r: seq<Client>) {
    if cs == [] then [] else Insert(cs[0], SortById(cs[1..]))
  }

  lemma {:induction false} InsertSorts(x: Client, cs: seq<Client>)
    requires SortedById(cs)
    ensures SortedById(Insert(x, cs)) && |Insert(x, cs)| == |cs| + 1
    ensures Insert(x, cs)[0] == x || (cs != [] && Insert(x, cs)[0] == cs[0])
  {
    if cs != [] && cs[0].id < x.id { InsertSorts(x, cs[1..]); }
  }

  lemma {:induction false} InsertAdds(x: Client, cs: seq<Client>)
    ensures multiset(Insert(x, cs)) == multiset(cs) + multiset{x}
  {
    if cs != [] && cs[0].id < x.id {
      InsertAdds(x, cs[1..]);
      assert cs == [cs[0]] + cs[1..];
    }
  }

  /** The sorted copy holds the same rows, by id. */
  lemma {:induction false} SortSorts(cs: seq<Client>)
    ensures SortedById(SortById(cs)) && multiset(SortById(cs)) == multiset(cs)
  {
    if cs != [] {
      SortSorts(cs[1..]);
      InsertSorts(cs[0], SortById(cs[1..]));
      InsertAdds(cs[0], SortById(cs[1..]));
      assert cs == [cs[0]] + cs[1..];
    }
  }

  datatype Entry = Entry(command: string, key: string)

  function Entries(env: Env, cs: seq<Client>): (es: seq<Entry>) {
    if cs == [] then []
    else (match Judge(env, cs[0]) case Admitted(command, key) => [Entry(command, key)] case _ => []) + Entries(env, cs[1..])
  }

  function SkippedOf(env: Env, cs: seq<Client>): (sk: seq<Skipped>) {
    if cs == [] then []
    else (match Judge(env, cs[0]) case Rejected(reason) => [Skipped(cs[0].id, reason)] case _ => []) + SkippedOf(env, cs[1..])
  }

  function FileLines(es: seq<Entry>): (lines: seq<string>) {
    if es == [] then [] else [LineFor(es[0].command, es[0].key)] + FileLines(es[1..])
  }

  /** Render, with its string builder and its list of skipped rows. */
  method Render(clients: seq<Client>, env: Env) returns (content: string, skipped: seq<Skipped>)
    ensures content == LineLogger.Unlines([HEADER_LINE] + FileLines(Entries(env, SortById(clients))))
    ensures skipped == SkippedOf(env, SortById(clients))
  {
    content := HEADER_LINE + "\n";
    skipped := [];
    var sorted := SortById(clients);
    ghost var all := content + BodyFrom(env, sorted, 0);
    var i := 0;
    while i < |sorted|
      invariant 0 <= i <= |sorted|
      invariant content + BodyFrom(env, sorted, i) == all
      invariant skipped + SkippedOf(env, sorted[i..]) == SkippedOf(env, sorted)
    {
      RowDone(env, sorted, i, content, skipped);
      var c := sorted[i];
      i := i + 1;
      if !c.enabled || TrimSpace(c.pubKey) == "" { continue; }
      var reason := CheckPubKey(env, c.pubKey);
      if reason != "" {
        skipped := skipped + [Skipped(c.id, reason)];
        continue;
      }
      if c.mode.Other? {
        skipped := skipped + [Skipped(c.id, "unknown mode " + c.mode.name)];
        continue;
      }
      var command := ForcedCommand(c.mode, Dir(env, SlugFor(env, c.name)));
      content := content + (LineFor(command, TrimSpace(c.pubKey)) + "\n");
    }
    assert sorted[0..] == sorted;
    HeaderFirst(FileLines(Entries(env, sorted)));
  }

  ghost function BodyFrom(env: Env, cs: seq<Client>, i: nat): (s: string)
    requires i <= |cs|
  {
    LineLogger.Unlines(FileLines(Entries(env, cs[i..])))
  }

  lemma {:induction false} HeaderFirst(lines: seq<string>)
    ensures LineLogger.Unlines([HEADER_LINE] + lines) == HEADER_LINE + "\n" + LineLogger.Unlines(lines)
  {
    assert ([HEADER_LINE] + lines)[1..] == lines;
  }

  function LineOf(v: Verdict): (text: string) { if v.Admitted? then LineFor(v.command, v.key) + "\n" else "" }

  function SkipOf(c: Client, v: Verdict): (sk: seq<Skipped>) { if v.Rejected? then [Skipped(c.id, v.reason)] else [] }

  /** The row's line moves from what is left to what is written. */
  lemma {:induction false} RowDone(env: Env, cs: seq<Client>, i: nat, content: string, skipped: seq<Skipped>)
    requires i < |cs|
    ensures var v := Judge(env, cs[i]);
            && content + BodyFrom(env, cs, i) == content + LineOf(v) + BodyFrom(env, cs, i + 1)
            && skipped + SkippedOf(env, cs[i..]) == skipped + SkipOf(cs[i], v) + SkippedOf(env, cs[i + 1..])
            && (LineOf(v) == "" ==> content + LineOf(v) == content)
            && (SkipOf(cs[i], v) == [] ==> skipped + SkipOf(cs[i], v) == skipped)
  {
    var v := Judge(env, cs[i]);
    FirstRow(env, cs[i..], v);
    assert cs[i..][1..] == cs[i + 1..];
    LineLogger.Assoc(content, LineOf(v), BodyFrom(env, cs, i + 1));
    LineLogger.Assoc(skipped, SkipOf(cs[i], v), SkippedOf(env, cs[i + 1..]));
  }

  lemma {:induction false} FirstRow(env: Env, cs: seq<Client>, v: Verdict)
    requires cs != [] && v == Judge(env, cs[0])
    ensures LineLogger.Unlines(FileLines(Entries(env, cs))) == LineOf(v) + LineLogger.Unlines(FileLines(Entries(env, cs[1..])))
    ensures SkippedOf(env, cs) == SkipOf(cs[0], v) + SkippedOf(env, cs[1..])
  {
    var es := Entries(env, cs[1..]);
    if v.Admitted? {
      assert ([Entry(v.command, v.key)] + es)[1..] == es;
      assert ([LineFor(v.command, v.key)] + FileLines(es))[1..] == FileLines(es);
    } else {
      assert [] + es == es;
    }
  }

  /** invalidPubKey, with its scan for control characters. */
  method CheckPubKey(env: Env, key: string) returns (reason: string)
    ensures reason == InvalidPubKey(env, key)
  {
    if '\n' in key || '\r' in key { return "embedded newline"; }
    if '\"' in key { return "embedded quote"; }
    var i := 0;
    while i < |key|
      invariant 0 <= i <= |key| && forall k :: 0 <= k < i ==> key[k] >= ' '
    {
      if key[i] < ' ' { return "control character"; }
      i := i + 1;
    }
    if !env.parses(key) { return "unparseable public key"; }
    return "";
  }

  // ---------- reading the file back ----------

  function FirstQuote(s: string): (i: nat)
    ensures i <= |s|
  {
    if s == [] || s[0] == '\"' then 0 else 1 + FirstQuote(s[1..])
  }

  function ParseLine(line: string): (e: Entry) {
    if |line| < |PREFIX| then Entry("", "")
    else
      var rest := line[|PREFIX|..];
      var q := FirstQuote(rest);
      if q + 2 > |rest| then Entry("", "") else Entry(rest[..q], rest[q + 2..])
  }

  function ParseLines(lines: seq<string>): (es: seq<Entry>) {
    if lines == [] then [] else [ParseLine(lines[0])] + ParseLines(lines[1..])
  }

  /** What sshd reads: the lines after the header comment. */
  function ParseFile(content: string): (es: seq<Entry>) {
    var lines := LineLogger.Lines(content);
    if lines == [] then [] else ParseLines(lines[1..])
  }

  predicate Clean(s: string) { '\n' !in s && '\"' !in s }

  lemma {:induction false} FirstQuoteAt(s: string, t: string)
    requires '\"' !in s
    ensures FirstQuote(s + ("\"" + t)) == |s|
  {
    if s == [] {
      assert s + ("\"" + t) == "\"" + t;
    } else {
      assert (s + ("\"" + t))[1..] == s[1..] + ("\"" + t);
      FirstQuoteAt(s[1..], t);
    }
  }

  lemma {:induction false} ParseLineFor(command: string, key: string)
    requires Clean(command)
    ensures ParseLine(LineFor(command, key)) == Entry(command, key)
  {
    var line := LineFor(command, key);
    var rest := command + ("\" " + key);
    assert line[|PREFIX|..] == rest;
    assert "\" " + key == "\"" + (" " + key);
    FirstQuoteAt(command, " " + key);
    assert rest[..|command|] == command && rest[|command| + 2..] == key;
  }

  lemma {:induction false} LinesOfUnlines(lines: seq<string>)
    requires forall k :: 0 <= k < |lines| ==> '\n' !in lines[k]
    ensures LineLogger.Lines(LineLogger.Unlines(lines)) == lines
  {
    if lines != [] {
      var s, rest := LineLogger.Unlines(lines), LineLogger.Unlines(lines[1..]);
      assert s == lines[0] + ("\n" + rest);
      LineLogger.FirstNewlineConcat(lines[0], "\n" + rest);
      NoNewline(lines[0]);
      assert s[..|lines[0]|] == lines[0] && s[|lines[0]| + 1..] == rest;
      LinesOfUnlines(lines[1..]);
    }
  }

  lemma {:induction false} NoNewline(s: string)
    requires '\n' !in s
    ensures LineLogger.FirstNewline(s) == |s|
  {
    assert forall k :: 0 <= k < |s| ==> s[k] != '\n';
  }

  lemma {:induction false} CommandIsClean(env: Env, mode: Mode, name: string)
    requires Clean(env.baseDir)
    ensures Clean(ForcedCommand(mode, Dir(env, SlugFor(env, name))))
  {
    var slug := SlugFor(env, name);
    RunsAreRuns(Lowered(name, env.lower));
    JoinAlphabet(Runs(Lowered(name, env.lower)));
    assert Clean(slug);
  }

  /** An admitted line cannot break out of its line, nor its command out of its quotes. */
  lemma {:induction false} AdmittedIsClean(env: Env, c: Client)
    requires Clean(env.baseDir) && Judge(env, c).Admitted?
    ensures Clean(Judge(env, c).command) && '\n' !in Judge(env, c).key
  {
    CommandIsClean(env, c.mode, c.name);
    assert '\n' !in c.pubKey && Judge(env, c).key == TrimSpace(c.pubKey);
  }

  lemma {:induction false} EntriesClean(env: Env, cs: seq<Client>)
    requires Clean(env.baseDir)
    ensures forall k :: 0 <= k < |Entries(env, cs)| ==> Clean(Entries(env, cs)[k].command) && '\n' !in Entries(env, cs)[k].key
  {
    if cs != [] {
      EntriesClean(env, cs[1..]);
      if Judge(env, cs[0]).Admitted? { AdmittedIsClean(env, cs[0]); }
    }
  }

  lemma {:induction false} ParseFileLines(es: seq<Entry>)
    requires forall k :: 0 <= k < |es| ==> Clean(es[k].command) && '\n' !in es[k].key
    ensures ParseLines(FileLines(es)) == es
    ensures forall k :: 0 <= k < |FileLines(es)| ==> '\n' !in FileLines(es)[k]
    ensures |FileLines(es)| == |es|
  {
    if es != [] {
      var e, rest := es[0], FileLines(es[1..]);
      var line := LineFor(e.command, e.key);
      ParseLineFor(e.command, e.key);
      LineIsClean(e.command, e.key);
      ParseFileLines(es[1..]);
      assert FileLines(es) == [line] + rest && FileLines(es)[0] == line && FileLines(es)[1..] == rest;
      assert ParseLines(FileLines(es)) == [e] + ParseLines(rest);
      assert es == [e] + es[1..];
    }
  }

  lemma {:induction false} LineIsClean(command: string, key: string)
    requires Clean(command) && '\n' !in key
    ensures '\n' !in LineFor(command, key)
  {}

  /** The rendered file reads back as exactly the admitted clients, in id order. */
  lemma {:induction false} RenderReadsBack(env: Env, clients: seq<Client>, content: string)
    requires Clean(env.baseDir)
    requires content == LineLogger.Unlines([HEADER_LINE] + FileLines(Entries(env, SortById(clients))))
    ensures ParseFile(content) == Entries(env, SortById(clients))
    ensures |LineLogger.Lines(content)| == 1 + |Entries(env, SortById(clients))|
  {
    EntriesClean(env, SortById(clients));
    ReadsBack(Entries(env, SortById(clients)));
  }

  /** Line by line: the header comment, and then for each entry its restrictions, its command in
      quotes and its key. */
  lemma {:induction false} RenderedLines(env: Env, clients: seq<Client>, content: string, k: nat)
    requires Clean(env.baseDir) && k < |Entries(env, SortById(clients))|
    requires content == LineLogger.Unlines([HEADER_LINE] + FileLines(Entries(env, SortById(clients))))
    ensures var lines := LineLogger.Lines(content); var e := Entries(env, SortById(clients))[k];
            && |lines| == 1 + |Entries(env, SortById(clients))| && lines[0] == HEADER_LINE && HEADER_LINE[0] == '#'
            && lines[k + 1] == "restrict,command=\"" + e.command + "\" " + e.key
  {
    hide LineFor, FileLines, Entries, SortById, LineLogger.Lines, LineLogger.Unlines;
    var es := Entries(env, SortById(clients));
    EntriesClean(env, SortById(clients));
    LinesRendered(es);
    FileLineAt(es, k);
    LineShape(es[k].command, es[k].key);
  }

  lemma {:induction false} LineShape(command: string, key: string)
    ensures LineFor(command, key) == "restrict,command=\"" + command + "\" " + key
  {
    LineLogger.Assoc("restrict,command=\"", command, "\" " + key);
    LineLogger.Assoc("restrict,command=\"" + command, "\" ", key);
  }

  lemma {:induction false} FileLineAt(es: seq<Entry>, k: nat)
    requires k < |es|
    ensures |FileLines(es)| == |es| && FileLines(es)[k] == LineFor(es[k].command, es[k].key)
  {
    if k > 0 { FileLineAt(es[1..], k - 1); } else if |es| > 1 { FileLineAt(es[1..], 0); }
  }

  lemma {:induction false} LinesRendered(es: seq<Entry>)
    requires forall k :: 0 <= k < |es| ==> Clean(es[k].command) && '\n' !in es[k].key
    ensures LineLogger.Lines(LineLogger.Unlines([HEADER_LINE] + FileLines(es))) == [HEADER_LINE] + FileLines(es)
  {
    ParseFileLines(es);
    var lines := [HEADER_LINE] + FileLines(es);
    assert forall k :: 0 < k < |lines| ==> lines[k] == FileLines(es)[k - 1];
    HeaderIsOneLine();
    LinesOfUnlines(lines);
  }

  lemma {:induction false} HeaderIsOneLine()
    ensures '\n' !in HEADER_LINE
  {
    assert '\n' !in "# Managed by backitup. ";
    assert '\n' !in "Do not edit; ";
    assert '\n' !in "regenerated from the database.";
  }

  lemma {:induction false} ReadsBack(es: seq<Entry>)
    requires forall k :: 0 <= k < |es| ==> Clean(es[k].command) && '\n' !in es[k].key
    ensures var content := LineLogger.Unlines([HEADER_LINE] + FileLines(es));
            ParseFile(content) == es && |LineLogger.Lines(content)| == 1 + |es|
  {
    ParseFileLines(es);
    LinesRendered(es);
    assert ([HEADER_LINE] + FileLines(es))[1..] == FileLines(es);
  }

  // ---------- rejected rows ----------

  /** Exactly the admitted rows, each as often as it occurs. */
  lemma {:induction false} AdmissibleExactly(env: Env, cs: seq<Client>, c: Client)
    ensures multiset(Admissible(env, cs))[c] == if Judge(env, c).Admitted? then multiset(cs)[c] else 0
  {
    if cs != [] {
      AdmissibleExactly(env, cs[1..], c);
      assert cs == [cs[0]] + cs[1..];
    }
  }

  /** The file has one entry for each admitted row, in id order. */
  lemma {:induction false} EntriesOfAdmitted(env: Env, cs: seq<Client>, k: nat)
    ensures |Entries(env, cs)| == |Admissible(env, cs)|
    ensures k < |Admissible(env, cs)| ==>
              var v := Judge(env, Admissible(env, cs)[k]); v.Admitted? && Entries(env, cs)[k] == Entry(v.command, v.key)
  {
    hide Judge;
    if cs != [] {
      if Judge(env, cs[0]).Admitted? && k > 0 { EntriesOfAdmitted(env, cs[1..], k - 1); } else { EntriesOfAdmitted(env, cs[1..], k); }
    }
  }

  /** The rows reported as skipped are exactly the rejected ones, with their reasons. */
  lemma {:induction false} SkippedExactly(env: Env, cs: seq<Client>, s: Skipped)
    ensures s in SkippedOf(env, cs) <==>
            exists k :: 0 <= k < |cs| && cs[k].id == s.id && Judge(env, cs[k]).Rejected? && Judge(env, cs[k]).reason == s.reason
  {
    hide Judge;
    if cs != [] {
      SkippedExactly(env, cs[1..], s);
      assert forall k :: 0 < k < |cs| ==> cs[k] == cs[1..][k - 1];
    }
  }

  function Admissible(env: Env, cs: seq<Client>): (r: seq<Client>) {
    if cs == [] then [] else (if Judge(env, cs[0]).Admitted? then [cs[0]] else []) + Admissible(env, cs[1..])
  }

  lemma {:induction false} EntriesOfAdmissible(env: Env, cs: seq<Client>)
    ensures Entries(env, Admissible(env, cs)) == Entries(env, cs)
  {
    if cs != [] {
      EntriesOfAdmissible(env, cs[1..]);
      var rest := Admissible(env, cs[1..]);
      if Judge(env, cs[0]).Admitted? {
        assert ([cs[0]] + rest)[1..] == rest;
      } else {
        assert [] + rest == rest;
      }
    }
  }

  lemma {:induction false} AdmissibleInsert(env: Env, x: Client, cs: seq<Client>)
    requires SortedById(cs)
    ensures Admissible(env, Insert(x, cs)) ==
            if Judge(env, x).Admitted? then Insert(x, Admissible(env, cs)) else Admissible(env, cs)
  {
    if cs == [] || x.id <= cs[0].id {
      assert ([x] + cs)[1..] == cs;
      AdmissibleAbove(env, x.id, cs);
      assert [] + Admissible(env, cs) == Admissible(env, cs);
    } else {
      var rest := Insert(x, cs[1..]);
      assert ([cs[0]] + rest)[1..] == rest;
      AdmissibleInsert(env, x, cs[1..]);
      var tail := Admissible(env, cs[1..]);
      if Judge(env, cs[0]).Admitted? {
        assert ([cs[0]] + tail)[1..] == tail;
      } else {
        assert [] + tail == tail;
      }
    }
  }

  lemma {:induction false} AdmissibleAbove(env: Env, id: int, cs: seq<Client>)
    requires SortedById(cs) && (cs != [] ==> id <= cs[0].id)
    ensures Admissible(env, cs) != [] ==> id <= Admissible(env, cs)[0].id
  {
    if cs != [] && !Judge(env, cs[0]).Admitted? { AdmissibleAbove(env, id, cs[1..]); }
  }

  lemma {:induction false} AdmissibleSort(env: Env, cs: seq<Client>)
    ensures Admissible(env, SortById(cs)) == SortById(Admissible(env, cs))
  {
    if cs != [] {
      AdmissibleSort(env, cs[1..]);
      SortSorts(cs[1..]);
      AdmissibleInsert(env, cs[0], SortById(cs[1..]));
      var rest := Admissible(env, cs[1..]);
      if Judge(env, cs[0]).Admitted? {
        assert ([cs[0]] + rest)[1..] == rest;
      } else {
        assert [] + rest == rest;
      }
    }
  }

  /** Only the admitted clients matter: rejected, disabled or keyless rows, wherever they are
      and whatever they hold, leave every line of the file as it is. */
  lemma {:induction false} OnlyAdmittedMatter(env: Env, a: seq<Client>, b: seq<Client>)
    requires Admissible(env, a) == Admissible(env, b)
    ensures Entries(env, SortById(a)) == Entries(env, SortById(b))
  {
    AdmissibleSort(env, a);
    AdmissibleSort(env, b);
    EntriesOfAdmissible(env, SortById(a));
    EntriesOfAdmissible(env, SortById(b));
  }
}
