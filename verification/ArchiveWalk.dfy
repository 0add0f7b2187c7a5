/** The walk that writes an archive (TarGz): which nodes of a directory tree are emitted, what
    is rebuilt from the entries, and what the counters count. */
module ArchiveWalk {
  import opened Options

  /** Special stands for sockets, devices, FIFOs and irregular files. */
  datatype Node = File(content: string) | Link(target: string) | Special | Dir(kids: seq<Entry>)

  datatype Entry = Entry(name: string, node: Node)

  type Path = seq<string>

  datatype Header = HFile(content: string) | HLink(target: string) | HDir

  /** One archive entry. */
  datatype Item = Item(path: Path, header: Header)

  /** `matches` is path.Match with its error taken for no match. */
  datatype Opts = Opts(excludes: seq<string>, matches: (string, string) -> bool, skipSymlinks: bool)

  // ---------- exclusion ----------

  function JoinPath(path: Path): (s: string) {
    if path == [] then "" else if |path| == 1 then path[0] else path[0] + "/" + JoinPath(path[1..])
  }

  /** A node's path is its directory's path, a slash and its name. */
  lemma {:induction false} JoinPathExtends(path: Path, name: string)
    ensures JoinPath([name]) == name
    ensures path != [] ==> JoinPath(path + [name]) == JoinPath(path) + "/" + name
  {
    if |path| > 1 {
      JoinPathExtends(path[1..], name);
      assert (path + [name])[1..] == path[1..] + [name];
    } else if |path| == 1 {
      assert (path + [name])[1..] == [name];
    }
  }

  function TrimmedSlash(s: string): (t: string)
    ensures t <= s && (s != "" ==> t != "") && (|t| <= 1 || t[|t| - 1] != '/')
    ensures forall k :: |t| <= k < |s| ==> s[k] == '/'
  {
    if |s| > 1 && s[|s| - 1] == '/' then TrimmedSlash(s[..|s| - 1]) else s
  }

  method TrimSlash(s: string) returns (t: string)
    ensures t == TrimmedSlash(s)
    ensures t <= s && (s != "" ==> t != "") && (|t| <= 1 || t[|t| - 1] != '/')
    ensures forall k :: |t| <= k < |s| ==> s[k] == '/'
  {
    t := s;
    while |t| > 1 && t[|t| - 1] == '/'
      invariant TrimmedSlash(t) == TrimmedSlash(s)
    {
      t := t[..|t| - 1];
    }
  }

  ghost predicate IsExcluded(o: Opts, path: Path)
    requires path != []
  {
    exists k :: 0 <= k < |o.excludes| && PatternHits(o, o.excludes[k], path)
  }

  predicate PatternHits(o: Opts, pattern: string, path: Path)
    requires path != []
  {
    o.matches(TrimmedSlash(pattern), JoinPath(path)) || o.matches(TrimmedSlash(pattern), path[|path| - 1])
  }

  method Excluded(o: Opts, path: Path) returns (hit: bool)
    requires path != []
    ensures hit <==> IsExcluded(o, path)
    ensures hit <==> exists k :: (0 <= k < |o.excludes| && (o.matches(TrimmedSlash(o.excludes[k]), JoinPath(path)) || o.matches(TrimmedSlash(o.excludes[k]), path[|path| - 1])))
  {
    var rel, base := JoinPath(path), path[|path| - 1];
    var k := 0;
    while k < |o.excludes|
      invariant 0 <= k <= |o.excludes| && forall j :: 0 <= j < k ==> !PatternHits(o, o.excludes[j], path)
    {
      var pat := TrimSlash(o.excludes[k]);
      if o.matches(pat, rel) || o.matches(pat, base) {
        assert PatternHits(o, o.excludes[k], path);
        return true;
      }
      k := k + 1;
    }
    return false;
  }

  // ---------- the specification of the walk ----------

  predicate Representable(o: Opts, node: Node) {
    !node.Special? && !(o.skipSymlinks && node.Link?)
  }

  function HeaderOf(node: Node): (h: Header)
    requires !node.Special?
  {
    match node
    case File(content) => HFile(content)
    case Link(target) => HLink(target)
    case Dir(_) => HDir
  }

  /** Entries of a subdirectory, seen from its parent. */
  function Under(name: string, items: seq<Item>): (r: seq<Item>)
    ensures |r| == |items|
    ensures forall k :: 0 <= k < |r| ==> r[k] == Item([name] + items[k].path, items[k].header)
  {
    if items == [] then [] else [Item([name] + items[0].path, items[0].header)] + Under(name, items[1..])
  }

  /** The entries for the children of the directory at `rel`, with paths relative to it. */
  ghost function Walk(o: Opts, rel: Path, kids: seq<Entry>): (items: seq<Item>)
    decreases kids
  {
    if kids == [] then [] else WalkOne(o, rel, kids[0]) + Walk(o, rel, kids[1..])
  }

  ghost function WalkOne(o: Opts, rel: Path, e: Entry): (items: seq<Item>)
    decreases e
  {
    if IsExcluded(o, rel + [e.name]) || !Representable(o, e.node) then []
    else [Item([e.name], HeaderOf(e.node))] + (if e.node.Dir? then Under(e.name, Walk(o, rel + [e.name], e.node.kids)) else [])
  }

  /** The tree without excluded and unrepresentable nodes. */
  ghost function Filter(o: Opts, rel: Path, kids: seq<Entry>): (r: seq<Entry>)
    decreases kids
  {
    if kids == [] then [] else FilterOne(o, rel, kids[0]) + Filter(o, rel, kids[1..])
  }

  ghost function FilterOne(o: Opts, rel: Path, e: Entry): (r: seq<Entry>)
    decreases e
  {
    if IsExcluded(o, rel + [e.name]) || !Representable(o, e.node) then []
    else [Entry(e.name, if e.node.Dir? then Dir(Filter(o, rel + [e.name], e.node.kids)) else e.node)]
  }

  /** Sibling names are distinct, at every level. */
  ghost predicate WellFormed(kids: seq<Entry>)
    decreases kids
  {
    && (forall i, j :: 0 <= i < j < |kids| ==> kids[i].name != kids[j].name)
    && (forall i :: 0 <= i < |kids| && kids[i].node.Dir? ==> WellFormed(kids[i].node.kids))
  }

  // ---------- rebuilding a tree from entries ----------

  function NodeOf(h: Header): (n: Node) {
    match h
    case HFile(content) => File(content)
    case HLink(target) => Link(target)
    case HDir => Dir([])
  }

  /** Extracting one entry. An entry whose parent directory is not there yet is lost. */
  function Extract(kids: seq<Entry>, path: Path, h: Header): (r: seq<Entry>)
    requires path != []
    decreases |path|, |kids|
  {
    if |path| == 1 then kids + [Entry(path[0], NodeOf(h))]
    else if kids == [] then []
    else if kids[0].name == path[0] && kids[0].node.Dir? then
      [Entry(path[0], Dir(Extract(kids[0].node.kids, path[1..], h)))] + kids[1..]
    else [kids[0]] + Extract(kids[1..], path, h)
  }

  predicate Proper(items: seq<Item>) { forall k :: 0 <= k < |items| ==> items[k].path != [] }

  function ExtractAll(kids: seq<Entry>, items: seq<Item>): (r: seq<Entry>)
    requires Proper(items)
    decreases |items|
  {
    if items == [] then kids else ExtractAll(Extract(kids, items[0].path, items[0].header), items[1..])
  }

  lemma {:induction false} ExtractAllConcat(kids: seq<Entry>, a: seq<Item>, b: seq<Item>)
    requires Proper(a) && Proper(b)
    ensures Proper(a + b) && ExtractAll(kids, a + b) == ExtractAll(ExtractAll(kids, a), b)
    decreases |a|
  {
    if a == [] {
      assert a + b == b;
    } else {
      assert (a + b)[0] == a[0] && (a + b)[1..] == a[1..] + b;
      ExtractAllConcat(Extract(kids, a[0].path, a[0].header), a[1..], b);
    }
  }

  /** Extraction below the directory just created goes into that directory. */
  lemma {:induction false} ExtractLast(kids: seq<Entry>, name: string, sub: seq<Entry>, path: Path, h: Header)
    requires path != [] && forall i :: 0 <= i < |kids| ==> kids[i].name != name
    ensures Extract(kids + [Entry(name, Dir(sub))], [name] + path, h) == kids + [Entry(name, Dir(Extract(sub, path, h)))]
    decreases |kids|
  {
    var all := kids + [Entry(name, Dir(sub))];
    assert ([name] + path)[1..] == path;
    if kids == [] {
      assert all[1..] == [];
    } else {
      assert all[0] == kids[0] && all[1..] == kids[1..] + [Entry(name, Dir(sub))];
      ExtractLast(kids[1..], name, sub, path, h);
    }
  }

  lemma {:induction false} ExtractUnder(kids: seq<Entry>, name: string, sub: seq<Entry>, items: seq<Item>)
    requires Proper(items) && forall i :: 0 <= i < |kids| ==> kids[i].name != name
    ensures Proper(Under(name, items))
    ensures ExtractAll(kids + [Entry(name, Dir(sub))], Under(name, items)) == kids + [Entry(name, Dir(ExtractAll(sub, items)))]
    decreases |items|
  {
    if items != [] {
      ExtractLast(kids, name, sub, items[0].path, items[0].header);
      assert Under(name, items)[1..] == Under(name, items[1..]);
      ExtractUnder(kids, name, Extract(sub, items[0].path, items[0].header), items[1..]);
    }
  }

  lemma {:induction false} WalkProper(o: Opts, rel: Path, kids: seq<Entry>)
    ensures Proper(Walk(o, rel, kids))
    decreases kids
  {
    if kids != [] {
      var e := kids[0];
      if e.node.Dir? { WalkProper(o, rel + [e.name], e.node.kids); }
      WalkProper(o, rel, kids[1..]);
    }
  }

  lemma {:induction false} RebuildOne(o: Opts, rel: Path, e: Entry, acc: seq<Entry>)
    requires (e.node.Dir? ==> WellFormed(e.node.kids)) && forall i :: 0 <= i < |acc| ==> acc[i].name != e.name
    ensures Proper(WalkOne(o, rel, e))
    ensures ExtractAll(acc, WalkOne(o, rel, e)) == acc + FilterOne(o, rel, e)
    decreases e, 1
  {
    if IsExcluded(o, rel + [e.name]) || !Representable(o, e.node) {
      assert acc + [] == acc;
    } else {
      var head := [Item([e.name], HeaderOf(e.node))];
      assert head[1..] == [];
      assert ExtractAll(acc, head) == acc + [Entry(e.name, NodeOf(HeaderOf(e.node)))];
      if e.node.Dir? {
        var items := Walk(o, rel + [e.name], e.node.kids);
        WalkProper(o, rel + [e.name], e.node.kids);
        Rebuild(o, rel + [e.name], e.node.kids, []);
        ExtractUnder(acc, e.name, [], items);
        ExtractAllConcat(acc, head, Under(e.name, items));
        assert [] + Filter(o, rel + [e.name], e.node.kids) == Filter(o, rel + [e.name], e.node.kids);
      } else {
        assert head + [] == head;
      }
    }
  }

  lemma {:induction false} Rebuild(o: Opts, rel: Path, kids: seq<Entry>, acc: seq<Entry>)
    requires WellFormed(kids)
    requires forall i, j :: 0 <= i < |acc| && 0 <= j < |kids| ==> acc[i].name != kids[j].name
    ensures Proper(Walk(o, rel, kids))
    ensures ExtractAll(acc, Walk(o, rel, kids)) == acc + Filter(o, rel, kids)
    decreases kids, 0
  {
    if kids == [] {
      assert acc + [] == acc;
    } else {
      var e, rest := kids[0], kids[1..];
      RebuildOne(o, rel, e, acc);
      assert forall k :: 0 <= k < |rest| ==> rest[k] == kids[k + 1];
      Rebuild(o, rel, rest, acc + FilterOne(o, rel, e));
      ExtractAllConcat(acc, WalkOne(o, rel, e), Walk(o, rel, rest));
      assert acc + FilterOne(o, rel, e) + Filter(o, rel, rest) == acc + (FilterOne(o, rel, e) + Filter(o, rel, rest));
    }
  }

  /** Extracting the archive, entry by entry, gives the filtered source tree. So every parent
      comes before its children, since extraction loses an entry without its parent. */
  lemma {:induction false} ExtractionGivesFilteredTree(o: Opts, kids: seq<Entry>)
    requires WellFormed(kids)
    ensures Proper(Walk(o, [], kids)) && ExtractAll([], Walk(o, [], kids)) == Filter(o, [], kids)
  {
    Rebuild(o, [], kids, []);
    assert [] + Filter(o, [], kids) == Filter(o, [], kids);
  }

  // ---------- which nodes are emitted ----------

  function Lookup(kids: seq<Entry>, path: Path): (n: Option<Node>)
    requires path != []
    decreases |path|, |kids|
  {
    if kids == [] then None
    else if kids[0].name != path[0] then Lookup(kids[1..], path)
    else if |path| == 1 then Some(kids[0].node)
    else if kids[0].node.Dir? then Lookup(kids[0].node.kids, path[1..])
    else None
  }

  ghost predicate NoPrefixExcluded(o: Opts, rel: Path, path: Path) {
    forall k :: 1 <= k <= |path| ==> !IsExcluded(o, rel + path[..k])
  }

  /** The node exists, can be represented, and neither it nor an ancestor is excluded. */
  ghost predicate Wanted(o: Opts, rel: Path, kids: seq<Entry>, i: Item) {
    && i.path != [] && NoPrefixExcluded(o, rel, i.path)
    && var n := Lookup(kids, i.path);
       n.Some? && Representable(o, n.value) && HeaderOf(n.value) == i.header
  }

  lemma {:induction false} PrefixStep(o: Opts, rel: Path, path: Path)
    requires path != []
    ensures NoPrefixExcluded(o, rel, path) <==>
            !IsExcluded(o, rel + [path[0]]) && NoPrefixExcluded(o, rel + [path[0]], path[1..])
  {
    var deeper := rel + [path[0]];
    assert path[..1] == [path[0]];
    forall k | 1 <= k < |path| ensures deeper + path[1..][..k] == rel + path[..k + 1] {}
    if NoPrefixExcluded(o, rel, path) {
      assert !IsExcluded(o, rel + path[..1]);
      forall k | 1 <= k <= |path[1..]| ensures !IsExcluded(o, deeper + path[1..][..k]) {
        assert !IsExcluded(o, rel + path[..k + 1]);
      }
    }
    if !IsExcluded(o, deeper) && NoPrefixExcluded(o, deeper, path[1..]) {
      forall k | 1 <= k <= |path| ensures !IsExcluded(o, rel + path[..k]) {
        if k > 1 { assert !IsExcluded(o, deeper + path[1..][..k - 1]); }
      }
    }
  }

  lemma {:induction false} InUnder(name: string, items: seq<Item>, i: Item)
    ensures i in Under(name, items) <==> i.path != [] && i.path[0] == name && Item(i.path[1..], i.header) in items
  {
    if i in Under(name, items) {
      var k :| 0 <= k < |items| && Under(name, items)[k] == i;
      assert i.path[1..] == items[k].path;
      assert items[k] == Item(i.path[1..], i.header);
    }
    if i.path != [] && i.path[0] == name && Item(i.path[1..], i.header) in items {
      var k :| 0 <= k < |items| && items[k] == Item(i.path[1..], i.header);
      assert [name] + i.path[1..] == i.path;
      assert Under(name, items)[k] == i;
    }
  }

  lemma {:induction false} EmittedOne(o: Opts, rel: Path, e: Entry, i: Item)
    requires e.node.Dir? ==> WellFormed(e.node.kids)
    ensures i in WalkOne(o, rel, e) <==> i.path != [] && i.path[0] == e.name && Wanted(o, rel, [e], i)
    decreases e, 1
  {
    if i.path != [] && i.path[0] == e.name {
      PrefixStep(o, rel, i.path);
      if |i.path| == 1 { assert i.path == [e.name]; }
    }
    if e.node.Dir? {
      var deeper := rel + [e.name];
      var items := Walk(o, deeper, e.node.kids);
      InUnder(e.name, items, i);
      WalkProper(o, deeper, e.node.kids);
      if i.path != [] && i.path[0] == e.name {
        Emitted(o, deeper, e.node.kids, Item(i.path[1..], i.header));
      }
    }
  }

  lemma {:induction false} LookupInTail(kids: seq<Entry>, path: Path)
    requires path != [] && forall k :: 0 <= k < |kids| ==> kids[k].name != path[0]
    ensures Lookup(kids, path) == None
    decreases |kids|
  {
    if kids != [] { LookupInTail(kids[1..], path); }
  }

  lemma {:induction false} Emitted(o: Opts, rel: Path, kids: seq<Entry>, i: Item)
    requires WellFormed(kids)
    ensures i in Walk(o, rel, kids) <==> Wanted(o, rel, kids, i)
    decreases kids, 0
  {
    if kids != [] {
      var e, rest := kids[0], kids[1..];
      assert forall k :: 0 <= k < |rest| ==> rest[k] == kids[k + 1];
      EmittedOne(o, rel, e, i);
      Emitted(o, rel, rest, i);
      if i.path != [] && i.path[0] == e.name {
        LookupInTail(rest, i.path);
        assert Lookup(kids, i.path) == Lookup([e], i.path);
      } else if i.path != [] {
        assert Lookup(kids, i.path) == Lookup(rest, i.path);
      }
    }
  }

  /** What belongs in the archive: a node that is not excluded and has no excluded ancestor, as a
      regular file with its content, as a directory, or, unless symlinks are skipped, as a
      symlink with its target; never a socket, a device or a FIFO. */
  ghost predicate Belongs(o: Opts, kids: seq<Entry>, path: Path, h: Header)
    requires path != []
  {
    (forall k :: 1 <= k <= |path| ==> !IsExcluded(o, path[..k])) &&
    match Lookup(kids, path)
    case None => false
    case Some(File(content)) => h == HFile(content)
    case Some(Dir(_)) => h == HDir
    case Some(Link(target)) => !o.skipSymlinks && h == HLink(target)
    case Some(Special) => false
  }

  /** The archive holds an entry exactly for the nodes that belong in it. */
  lemma {:induction false} EmitsExactlyTheWanted(o: Opts, kids: seq<Entry>, path: Path, h: Header)
    requires WellFormed(kids) && path != []
    ensures Item(path, h) in Walk(o, [], kids) <==> Belongs(o, kids, path, h)
  {
    Emitted(o, [], kids, Item(path, h));
    assert forall k :: 1 <= k <= |path| ==> [] + path[..k] == path[..k];
  }

  // ---------- the counters ----------

  function FileCount(items: seq<Item>): (n: nat) {
    if items == [] then 0 else (if items[0].header.HFile? then 1 else 0) + FileCount(items[1..])
  }

  function ByteCount(items: seq<Item>): (n: nat) {
    if items == [] then 0 else (if items[0].header.HFile? then |items[0].header.content| else 0) + ByteCount(items[1..])
  }

  function TreeFiles(kids: seq<Entry>): (n: nat)
    decreases kids
  {
    if kids == [] then 0
    else (match kids[0].node case File(_) => 1 case Dir(sub) => TreeFiles(sub) case _ => 0) + TreeFiles(kids[1..])
  }

  function TreeBytes(kids: seq<Entry>): (n: nat)
    decreases kids
  {
    if kids == [] then 0
    else (match kids[0].node case File(content) => |content| case Dir(sub) => TreeBytes(sub) case _ => 0) + TreeBytes(kids[1..])
  }

  lemma {:induction false} CountsConcat(a: seq<Item>, b: seq<Item>)
    ensures FileCount(a + b) == FileCount(a) + FileCount(b) && ByteCount(a + b) == ByteCount(a) + ByteCount(b)
  {
    if a == [] {
      assert a + b == b;
    } else {
      assert (a + b)[1..] == a[1..] + b;
      CountsConcat(a[1..], b);
    }
  }

  /** What one more entry adds to the counts. */
  lemma {:induction false} CountsGrow(items: seq<Item>, i: Item)
    ensures FileCount([]) == 0 && FileCount(items + [i]) == FileCount(items) + match i.header case HFile(_) => 1 case HLink(_) => 0 case HDir => 0
    ensures ByteCount([]) == 0 && ByteCount(items + [i]) == ByteCount(items) + match i.header case HFile(content) => |content| case HLink(_) => 0 case HDir => 0
  {
    CountsConcat(items, [i]);
    assert [i][1..] == [];
  }

  lemma {:induction false} CountsUnder(name: string, items: seq<Item>)
    ensures FileCount(Under(name, items)) == FileCount(items) && ByteCount(Under(name, items)) == ByteCount(items)
  {
    if items != [] {
      CountsUnder(name, items[1..]);
      assert Under(name, items)[1..] == Under(name, items[1..]);
    }
  }

  lemma {:induction false} TreeConcat(a: seq<Entry>, b: seq<Entry>)
    ensures TreeFiles(a + b) == TreeFiles(a) + TreeFiles(b) && TreeBytes(a + b) == TreeBytes(a) + TreeBytes(b)
    decreases |a|
  {
    if a == [] {
      assert a + b == b;
    } else {
      assert (a + b)[0] == a[0] && (a + b)[1..] == a[1..] + b;
      TreeConcat(a[1..], b);
    }
  }

  lemma {:induction false} CountersOne(o: Opts, rel: Path, e: Entry)
    ensures FileCount(WalkOne(o, rel, e)) == TreeFiles(FilterOne(o, rel, e))
    ensures ByteCount(WalkOne(o, rel, e)) == TreeBytes(FilterOne(o, rel, e))
    decreases e, 1
  {
    if !IsExcluded(o, rel + [e.name]) && Representable(o, e.node) {
      var head := [Item([e.name], HeaderOf(e.node))];
      assert head[1..] == [];
      var f := FilterOne(o, rel, e);
      assert f[1..] == [];
      if e.node.Dir? {
        Counters(o, rel + [e.name], e.node.kids);
        CountsUnder(e.name, Walk(o, rel + [e.name], e.node.kids));
        CountsConcat(head, Under(e.name, Walk(o, rel + [e.name], e.node.kids)));
      } else {
        assert head + [] == head;
      }
    }
  }

  /** The counters are the number of regular files and of bytes of the filtered tree. */
  lemma {:induction false} Counters(o: Opts, rel: Path, kids: seq<Entry>)
    ensures FileCount(Walk(o, rel, kids)) == TreeFiles(Filter(o, rel, kids))
    ensures ByteCount(Walk(o, rel, kids)) == TreeBytes(Filter(o, rel, kids))
    decreases kids, 0
  {
    if kids != [] {
      CountersOne(o, rel, kids[0]);
      Counters(o, rel, kids[1..]);
      CountsConcat(WalkOne(o, rel, kids[0]), Walk(o, rel, kids[1..]));
      TreeConcat(FilterOne(o, rel, kids[0]), Filter(o, rel, kids[1..]));
    }
  }

  // ---------- the walk as the code runs it ----------

  function At(rel: Path, items: seq<Item>): (r: seq<Item>)
    ensures |r| == |items|
    ensures forall k :: 0 <= k < |r| ==> r[k] == Item(rel + items[k].path, items[k].header)
  {
    if items == [] then [] else [Item(rel + items[0].path, items[0].header)] + At(rel, items[1..])
  }

  lemma {:induction false} AtUnder(rel: Path, name: string, items: seq<Item>)
    ensures At(rel, Under(name, items)) == At(rel + [name], items)
  {
    forall k | 0 <= k < |items| ensures At(rel, Under(name, items))[k] == At(rel + [name], items)[k] {
      assert rel + ([name] + items[k].path) == rel + [name] + items[k].path;
    }
  }

  lemma {:induction false} AtConcat(rel: Path, a: seq<Item>, b: seq<Item>)
    ensures At(rel, a + b) == At(rel, a) + At(rel, b)
  {}

  lemma {:induction false} Joined(rel: Path, before: seq<Item>, a: seq<Item>, b: seq<Item>)
    ensures before + At(rel, a) + At(rel, b) == before + At(rel, a + b)
    ensures FileCount(a + b) == FileCount(a) + FileCount(b) && ByteCount(a + b) == ByteCount(a) + ByteCount(b)
  {
    CountsConcat(a, b);
    AtConcat(rel, a, b);
  }

  class Archiver {
    var out: seq<Item>
    var files: nat
    var written: nat

    constructor ()
      ensures out == [] && files == 0 && written == 0
    {
      out, files, written := [], 0, 0;
    }

    /** filepath.WalkDir over the children of the directory at `rel`. */
    method WalkDir(o: Opts, rel: Path, kids: seq<Entry>)
      modifies this
      ensures out == old(out) + At(rel, Walk(o, rel, kids))
      ensures files == old(files) + FileCount(Walk(o, rel, kids))
      ensures written == old(written) + ByteCount(Walk(o, rel, kids))
      decreases kids, 0
    {
      if kids == [] { return; }
      var e := kids[0];
      Visit(o, rel, e);
      WalkDir(o, rel, kids[1..]);
      Joined(rel, old(out), WalkOne(o, rel, e), Walk(o, rel, kids[1..]));
    }

    /** The callback on one node, and the descent unless it answers SkipDir. */
    method Visit(o: Opts, rel: Path, e: Entry)
      modifies this
      ensures out == old(out) + At(rel, WalkOne(o, rel, e))
      ensures files == old(files) + FileCount(WalkOne(o, rel, e))
      ensures written == old(written) + ByteCount(WalkOne(o, rel, e))
      ensures IsExcluded(o, rel + [e.name]) || e.node.Special? || (o.skipSymlinks && e.node.Link?) ==>
                out == old(out) && files == old(files) && written == old(written)
      ensures !IsExcluded(o, rel + [e.name]) ==>
                match e.node
                case File(content) => out == old(out) + [Item(rel + [e.name], HFile(content))] && files == old(files) + 1 && written == old(written) + |content|
                case Link(target) => !o.skipSymlinks ==> out == old(out) + [Item(rel + [e.name], HLink(target))] && files == old(files) && written == old(written)
                case Dir(_) => old(out) + [Item(rel + [e.name], HDir)] <= out
                case Special => true
      decreases e, 1
    {
      var hit := Excluded(o, rel + [e.name]);
      if hit || e.node.Special? || (o.skipSymlinks && e.node.Link?) {
        assert old(out) + [] == old(out);
        return;
      }
      ghost var head := [Item([e.name], HeaderOf(e.node))];
      assert head[1..] == [] && At(rel, head) == [Item(rel + [e.name], HeaderOf(e.node))];
      out := out + [Item(rel + [e.name], HeaderOf(e.node))];
      match e.node {
        case File(content) =>
          files := files + 1;
          written := written + |content|;
          assert head + [] == head;
        case Dir(sub) =>
          WalkDir(o, rel + [e.name], sub);
          DirDone(o, rel, e, old(out), head);
        case Link(_) =>
          assert head + [] == head;
        case Special =>
      }
    }

    lemma {:induction false} DirDone(o: Opts, rel: Path, e: Entry, before: seq<Item>, head: seq<Item>)
      requires e.node.Dir? && head == [Item([e.name], HDir)]
      ensures var items := Walk(o, rel + [e.name], e.node.kids);
              && before + At(rel, head) + At(rel + [e.name], items) == before + At(rel, head + Under(e.name, items))
              && FileCount(head + Under(e.name, items)) == FileCount(items)
              && ByteCount(head + Under(e.name, items)) == ByteCount(items)
    {
      var items := Walk(o, rel + [e.name], e.node.kids);
      AtUnder(rel, e.name, items);
      AtConcat(rel, head, Under(e.name, items));
      CountsUnder(e.name, items);
      CountsConcat(head, Under(e.name, items));
      assert head[1..] == [];
      assert before + At(rel, head) + At(rel + [e.name], items) == before + (At(rel, head) + At(rel + [e.name], items));
    }
  }

  /** TarGz of a source tree. */
  method TarGz(o: Opts, kids: seq<Entry>) returns (out: seq<Item>, files: nat, written: nat)
    requires WellFormed(kids)
    ensures out == Walk(o, [], kids)
    ensures forall path, h :: path != [] ==> (Item(path, h) in out <==> Belongs(o, kids, path, h))
    ensures files == FileCount(out) && written == ByteCount(out)
    ensures Proper(out) && ExtractAll([], out) == Filter(o, [], kids)
    ensures files == TreeFiles(Filter(o, [], kids)) && written == TreeBytes(Filter(o, [], kids))
  {
    var a := new Archiver();
    a.WalkDir(o, [], kids);
    out, files, written := a.out, a.files, a.written;
    ghost var items := Walk(o, [], kids);
    assert out == items by {
      assert forall k :: 0 <= k < |items| ==> [] + items[k].path == items[k].path;
      assert [] + At([], items) == At([], items);
    }
    ExtractionGivesFilteredTree(o, kids);
    Counters(o, [], kids);
    forall path: Path, h | path != [] ensures Item(path, h) in out <==> Belongs(o, kids, path, h) { EmitsExactlyTheWanted(o, kids, path, h); }
  }
}
