/** The read-only snapshot filesystem: only files are stored, directories are made up from their
    paths. */
module TreeFS {
  import opened Finite
  import opened Ordering
  import opened Text
  import opened Wrappers

  type Content = seq<bv8>

  // ---------- paths ----------

  /** fs.ValidPath, on text. */
  ghost predicate ValidPath(p: string) {
    p == "." || forall c <- Split(p, '/') :: c != "" && c != "." && c != ".."
  }

  method CheckPath(p: string) returns (ok: bool)
    ensures ok <==> ValidPath(p)
  {
    if p == "." {
      return true;
    }
    var elements := Split(p, '/');
    for i := 0 to |elements|
      invariant forall j :: 0 <= j < i ==> elements[j] != "" && elements[j] != "." && elements[j] != ".."
    {
      if elements[i] == "" || elements[i] == "." || elements[i] == ".." {
        assert elements[i] in elements;
        return false;
      }
    }
    return true;
  }

  function Base(p: string): string {
    var elements := Split(p, '/');
    elements[|elements| - 1]
  }

  /** The last element of a path: what follows its last slash, or all of it. */
  lemma {:induction false} BaseIsLast(p: string)
    ensures '/' !in Base(p)
    ensures '/' !in p ==> Base(p) == p
    ensures '/' in p ==> HasSuffix(p, "/" + Base(p))
  {
    SplitFields(p, '/');
    if '/' !in p {
      SplitWhole(p, '/');
    } else {
      BaseIsLast(p[1..]);
      BaseOfTail(p);
      hide Base, Split;
      assert p == [p[0]] + p[1..];
      var suffix := "/" + Base(p[1..]);
      if '/' in p[1..] {
        assert p[|p| - |suffix|..] == p[1..][|p[1..]| - |suffix|..];
      } else {
        assert p == suffix;
      }
    }
  }

  lemma BaseOfTail(p: string)
    requires '/' in p
    ensures Base(p) == Base(p[1..])
  {
    if p[0] != '/' {
      assert '/' in p[1..];
      SplitInTwo(p[1..]);
    }
  }

  lemma {:induction false} SplitInTwo(s: string)
    requires '/' in s
    ensures |Split(s, '/')| > 1
  {
    if s[0] != '/' { SplitInTwo(s[1..]); }
  }

  function PrefixOf(dir: string): string {
    if dir == "." then "" else dir + "/"
  }

  predicate Under(p: string, dir: string) {
    HasPrefix(p, PrefixOf(dir))
  }

  function Rest(p: string, dir: string): string
    requires Under(p, dir)
  {
    p[|PrefixOf(dir)|..]
  }

  function Join(dir: string, name: string): string {
    PrefixOf(dir) + name
  }

  /** What comes before the first slash, or all of it. */
  function Head(rest: string): string {
    Split(rest, '/')[0]
  }

  lemma {:induction false} SplitConcat(d: string, r: string)
    ensures Split(d + "/" + r, '/') == Split(d, '/') + Split(r, '/')
  {
    if d == [] {
      assert d + "/" + r == "/" + r;
      assert ("/" + r)[1..] == r;
    } else {
      assert (d + "/" + r)[1..] == d[1..] + "/" + r;
      SplitConcat(d[1..], r);
    }
  }

  lemma {:induction false} CutHead(rest: string)
    ensures '/' !in Head(rest)
    ensures '/' !in rest ==> Head(rest) == rest
    ensures '/' in rest ==> HasPrefix(rest, Head(rest) + "/")
  {
    hide Head, Split, HasPrefix;
    HeadNext(rest);
    if rest == [] {
    } else if rest[0] == '/' {
      assert "" + "/" == "/";
    } else {
      CutHead(rest[1..]);
      assert rest == [rest[0]] + rest[1..];
      if '/' in rest {
        PrefixNext(rest[0], rest[1..], Head(rest[1..]));
      }
    }
  }

  lemma HeadNext(rest: string)
    ensures rest == [] || rest[0] == '/' ==> Head(rest) == []
    ensures rest != [] && rest[0] == '/' ==> HasPrefix(rest, "/")
    ensures rest != [] && rest[0] != '/' ==> Head(rest) == [rest[0]] + Head(rest[1..])
  {
  }

  lemma PrefixNext(c: char, s: string, h: string)
    requires HasPrefix(s, h + "/")
    ensures HasPrefix([c] + s, ([c] + h) + "/")
  {
    assert ([c] + h) + "/" == [c] + (h + "/");
  }

  lemma HeadOf(h: string, r: string)
    requires '/' !in h
    ensures Head(h + "/" + r) == h
  {
    SplitField(h, r, '/');
    assert h + ['/'] + r == h + "/" + r;
  }

  // ---------- the tree ----------

  datatype Entry = Entry(name: string, dir: bool, size: nat)

  /** The stored paths are valid, and none of them is another's directory. */
  ghost predicate Tree(files: map<string, Content>) {
    && (forall p <- files :: ValidPath(p) && p != ".")
    && forall p, q :: p in files && q in files ==> !HasPrefix(q, p + "/")
  }

  ghost predicate IsDir(files: map<string, Content>, name: string) {
    name == "." || exists p :: p in files && Under(p, name)
  }

  function EntryOf(rest: string, data: Content): Entry {
    if '/' in rest then Entry(Head(rest), true, 0) else Entry(rest, false, |data|)
  }

  function EntryNames(es: seq<Entry>): seq<string> {
    seq(|es|, i requires 0 <= i < |es| => es[i].name)
  }

  ghost predicate Reports(files: map<string, Content>, dir: string, e: Entry) {
    exists p :: p in files && Under(p, dir) && EntryOf(Rest(p, dir), files[p]) == e
  }

  /** The children of a directory: every one that is there, once, in order of name, and nothing
      else. */
  ghost predicate Listing(files: map<string, Content>, dir: string, es: seq<Entry>) {
    && SortedNames(EntryNames(es))
    && (forall e <- es :: Reports(files, dir, e))
    && forall p :: p in files && Under(p, dir) ==> Head(Rest(p, dir)) in EntryNames(es)
  }

  // ---------- the code ----------

  method CutSlash(s: string) returns (before: string, found: bool)
    ensures found <==> '/' in s
    ensures before == Head(s)
  {
    CutHead(s);
    for i := 0 to |s|
      invariant '/' !in s[..i]
    {
      if s[i] == '/' {
        assert s == s[..i] + "/" + s[i + 1..];
        HeadOf(s[..i], s[i + 1..]);
        return s[..i], true;
      }
      assert s[..i + 1] == s[..i] + [s[i]];
    }
    assert s[..|s|] == s;
    return s, false;
  }

  ghost predicate Children(files: map<string, Content>, dir: string, seen: set<string>, children: map<string, Entry>) {
    && (forall name <- children :: children[name].name == name && Reports(files, dir, children[name]))
    && forall p :: p in seen && p in files && Under(p, dir) ==> Head(Rest(p, dir)) in children
  }

  /** dirEntries; the stored paths come in any order. */
  method DirEntries(files: map<string, Content>, dir: string) returns (r: Option<seq<Entry>>)
    ensures r.None? <==> !IsDir(files, dir)
    ensures r.Some? ==> Listing(files, dir, r.value)
  {
    var prefix := if dir != "." then dir + "/" else "";
    var children: map<string, Entry> := map[];
    var found := dir == ".";
    var left := files.Keys;
    NothingSeen(files, dir);
    hide Children, SomeUnder, Reports, Listing, IsDir;
    while left != {}
      invariant left <= files.Keys
      invariant Children(files, dir, files.Keys - left, children)
      invariant found <==> dir == "." || SomeUnder(dir, files.Keys - left)
      decreases |left|
    {
      var p :| p in left;
      ghost var seen := files.Keys - left;
      left := left - {p};
      assert files.Keys - left == seen + {p};
      OneMoreSeen(files, dir, seen, children, p);
      if !HasPrefix(p, prefix) {
        continue;
      }
      found := true;
      var rest := p[|prefix|..];
      CutHead(rest);
      var base, nested := CutSlash(rest);
      if nested {
        children := children[base := Entry(base, true, 0)];
        continue;
      }
      children := children[rest := Entry(rest, false, |files[p]|)];
    }
    SomeIsDir(files, dir);
    if !found {
      return None;
    }
    ChildrenNamed(files, dir, files.Keys - left, children);
    var entries := SortedEntries(children);
    ChildrenListed(files, dir, children, entries);
    return Some(entries);
  }

  ghost predicate SomeUnder(dir: string, seen: set<string>) {
    exists p :: p in seen && Under(p, dir)
  }

  lemma NothingSeen(files: map<string, Content>, dir: string)
    ensures Children(files, dir, files.Keys - files.Keys, map[])
    ensures !SomeUnder(dir, files.Keys - files.Keys)
  {
  }

  lemma SomeIsDir(files: map<string, Content>, dir: string)
    ensures files.Keys - {} == files.Keys
    ensures IsDir(files, dir) <==> dir == "." || SomeUnder(dir, files.Keys)
  {
  }

  lemma ChildrenNamed(files: map<string, Content>, dir: string, seen: set<string>, children: map<string, Entry>)
    requires Children(files, dir, seen, children)
    ensures forall name <- children :: children[name].name == name
  {
  }

  lemma OneMoreSeen(files: map<string, Content>, dir: string, seen: set<string>, children: map<string, Entry>,
      p: string)
    requires p in files && Children(files, dir, seen, children)
    ensures !Under(p, dir) ==> Children(files, dir, seen + {p}, children)
    ensures SomeUnder(dir, seen + {p}) <==> SomeUnder(dir, seen) || Under(p, dir)
    ensures Under(p, dir) ==>
              var e := EntryOf(Rest(p, dir), files[p]);
              Children(files, dir, seen + {p}, children[e.name := e])
  {
    hide Reports, Head, Rest, Under, EntryOf;
    if SomeUnder(dir, seen) {
      var q :| q in seen && Under(q, dir);
      assert q in seen + {p};
    }
    if Under(p, dir) {
      assert p in seen + {p};
      ChildReported(files, dir, p);
      ChildNamed(Rest(p, dir), files[p]);
    }
  }

  lemma ChildNamed(rest: string, data: Content)
    ensures EntryOf(rest, data).name == Head(rest)
  {
    CutHead(rest);
  }

  lemma ChildReported(files: map<string, Content>, dir: string, p: string)
    requires p in files && Under(p, dir)
    ensures Reports(files, dir, EntryOf(Rest(p, dir), files[p]))
  {
  }

  method SortedEntries(children: map<string, Entry>) returns (entries: seq<Entry>)
    requires forall name <- children :: children[name].name == name
    ensures SortedNames(EntryNames(entries))
    ensures forall e :: e in entries <==> e.name in children && children[e.name] == e
  {
    entries := [];
    var left := children.Keys;
    while left != {}
      invariant left <= children.Keys && Distinct(EntryNames(entries))
      invariant forall e :: e in entries <==> e.name in children.Keys - left && children[e.name] == e
      decreases |left|
    {
      var name :| name in left;
      assert forall i :: 0 <= i < |entries| ==> EntryNames(entries)[i] != name by {
        forall i | 0 <= i < |entries| ensures EntryNames(entries)[i] != name { assert entries[i] in entries; }
      }
      assert EntryNames(entries + [children[name]]) == EntryNames(entries) + [name];
      entries := entries + [children[name]];
      left := left - {name};
    }
    ghost var before := entries;
    entries := SortByKey(entries, (e: Entry) => e.name);
    SameMembers(entries, before);
    DistinctByName(children, before);
    DistinctByName(children, entries);
    SortingKeepsDistinct(before, entries);
  }

  lemma DistinctByName(children: map<string, Entry>, es: seq<Entry>)
    requires forall e :: e in es ==> e.name in children && children[e.name] == e
    ensures Distinct(es) <==> Distinct(EntryNames(es))
  {
    forall i, j | 0 <= i < j < |es| ensures es[i] != es[j] <==> EntryNames(es)[i] != EntryNames(es)[j] {
      assert es[i] in es && es[j] in es;
    }
  }

  lemma ChildrenListed(files: map<string, Content>, dir: string, children: map<string, Entry>, es: seq<Entry>)
    requires Children(files, dir, files.Keys, children)
    requires SortedNames(EntryNames(es))
    requires forall e :: e in es <==> e.name in children && children[e.name] == e
    ensures Listing(files, dir, es)
  {
    hide Reports, SortedNames;
    forall p | p in files && Under(p, dir) ensures Head(Rest(p, dir)) in EntryNames(es) {
      var e := children[Head(Rest(p, dir))];
      assert e in es;
      var i :| 0 <= i < |es| && es[i] == e;
      assert EntryNames(es)[i] == e.name;
    }
  }

  datatype Info = Info(name: string, dir: bool, size: nat)

  datatype Answer<T> = Invalid | NotExist | Found(value: T)

  datatype Opened = OpenFile(info: Info, data: Content) | OpenDir(info: Info, entries: seq<Entry>)

  method Open(files: map<string, Content>, name: string) returns (r: Answer<Opened>)
    ensures r.Invalid? <==> !ValidPath(name)
    ensures r.NotExist? <==> ValidPath(name) && name !in files && !IsDir(files, name)
    ensures r.Found? && name in files ==> r.value == OpenFile(Info(Base(name), false, |files[name]|), files[name])
    ensures r.Found? && name !in files ==>
              r.value.OpenDir? && r.value.info == Info(Base(name), true, 0) && Listing(files, name, r.value.entries)
  {
    var ok := CheckPath(name);
    if !ok {
      return Invalid;
    }
    if name in files {
      return Found(OpenFile(Info(Base(name), false, |files[name]|), files[name]));
    }
    var entries := DirEntries(files, name);
    if entries.None? {
      return NotExist;
    }
    return Found(OpenDir(Info(Base(name), true, 0), entries.value));
  }

  method ReadFile(files: map<string, Content>, name: string) returns (r: Answer<Content>)
    ensures r.Invalid? <==> !ValidPath(name)
    ensures r.NotExist? <==> ValidPath(name) && name !in files
    ensures r.Found? ==> name in files && r.value == files[name]
  {
    var ok := CheckPath(name);
    if !ok {
      return Invalid;
    }
    if name !in files {
      return NotExist;
    }
    return Found(files[name]);
  }

  method ReadDir(files: map<string, Content>, name: string) returns (r: Answer<seq<Entry>>)
    ensures r.Invalid? <==> !ValidPath(name)
    ensures r.NotExist? <==> ValidPath(name) && !IsDir(files, name)
    ensures r.Found? ==> Listing(files, name, r.value)
  {
    var ok := CheckPath(name);
    if !ok {
      return Invalid;
    }
    var entries := DirEntries(files, name);
    if entries.None? {
      return NotExist;
    }
    return Found(entries.value);
  }

  method Stat(files: map<string, Content>, name: string) returns (r: Answer<Info>)
    ensures r.Invalid? <==> !ValidPath(name)
    ensures r.NotExist? <==> ValidPath(name) && name !in files && !IsDir(files, name)
    ensures r.Found? ==>
              r.value == if name in files then Info(Base(name), false, |files[name]|) else Info(Base(name), true, 0)
  {
    var ok := CheckPath(name);
    if !ok {
      return Invalid;
    }
    if name in files {
      return Found(Info(Base(name), false, |files[name]|));
    }
    var entries := DirEntries(files, name);
    if entries.Some? {
      return Found(Info(Base(name), true, 0));
    }
    return NotExist;
  }

  // ---------- directories and files keep apart ----------

  lemma {:induction false} FileOrDir(files: map<string, Content>, name: string)
    requires Tree(files)
    ensures !(name in files && IsDir(files, name))
  {
  }

  lemma NoEmptyHead(files: map<string, Content>, dir: string, p: string)
    requires Tree(files) && p in files && Under(p, dir) && ValidPath(dir)
    ensures var h := Head(Rest(p, dir)); h != "" && h != "." && h != ".." && '/' !in h
    ensures Split(p, '/') == (if dir == "." then [] else Split(dir, '/')) + Split(Rest(p, dir), '/')
  {
    hide Split, Tree, ValidPath, Under, Rest;
    CutHead(Rest(p, dir));
    SplitBelow(dir, p);
    StoredElements(files, p);
  }

  lemma StoredElements(files: map<string, Content>, p: string)
    requires Tree(files) && p in files
    ensures forall c <- Split(p, '/') :: c != "" && c != "." && c != ".."
  {
    hide Split, HasPrefix;
    assert ValidPath(p) && p != ".";
  }

  lemma SplitBelow(dir: string, p: string)
    requires Under(p, dir)
    ensures Split(p, '/') == (if dir == "." then [] else Split(dir, '/')) + Split(Rest(p, dir), '/')
    ensures Head(Rest(p, dir)) in Split(p, '/')
  {
    hide Split;
    if dir == "." {
      assert Rest(p, dir) == p;
    } else {
      assert p == dir + "/" + Rest(p, dir);
      SplitConcat(dir, Rest(p, dir));
    }
  }

  lemma JoinIsValid(files: map<string, Content>, dir: string, p: string)
    requires Tree(files) && p in files && Under(p, dir) && ValidPath(dir)
    ensures var child := Join(dir, Head(Rest(p, dir))); ValidPath(child) && child != "."
  {
    NoEmptyHead(files, dir, p);
    var h := Head(Rest(p, dir));
    SplitWhole(h, '/');
    if dir == "." {
      assert Join(dir, h) == h;
    } else {
      assert Join(dir, h) == dir + "/" + h;
      SplitConcat(dir, h);
      assert '/' in Join(dir, h);
    }
  }

  /** Below a child: below the directory, and nested under that name. */
  lemma UnderChild(dir: string, h: string, p: string)
    requires '/' !in h && Join(dir, h) != "."
    ensures Under(p, Join(dir, h)) <==> Under(p, dir) && '/' in Rest(p, dir) && Head(Rest(p, dir)) == h
  {
    var child := Join(dir, h);
    var prefix := PrefixOf(dir);
    assert PrefixOf(child) == prefix + (h + "/");
    if Under(p, child) {
      assert p[..|prefix|] == PrefixOf(child)[..|prefix|] == prefix;
      var r := p[|PrefixOf(child)|..];
      assert Rest(p, dir) == h + "/" + r;
      HeadOf(h, r);
    }
    if Under(p, dir) && '/' in Rest(p, dir) && Head(Rest(p, dir)) == h {
      CutHead(Rest(p, dir));
      assert p == prefix + Rest(p, dir);
      assert Rest(p, dir) == (h + "/") + Rest(p, dir)[|h| + 1..];
    }
  }

  lemma FileChild(dir: string, h: string, p: string)
    requires '/' !in h
    ensures p == Join(dir, h) <==> Under(p, dir) && '/' !in Rest(p, dir) && Head(Rest(p, dir)) == h
  {
    hide Head, PrefixOf;
    CutHead(h);
    if p == Join(dir, h) {
      assert Rest(p, dir) == h;
    }
    if Under(p, dir) && '/' !in Rest(p, dir) {
      CutHead(Rest(p, dir));
      assert p == PrefixOf(dir) + Rest(p, dir);
    }
  }

  /** What a listing says of a child is what Stat and Open say of it. */
  lemma ListingAgrees(files: map<string, Content>, dir: string, es: seq<Entry>, e: Entry)
    requires Tree(files) && ValidPath(dir) && Listing(files, dir, es) && e in es
    ensures var child := Join(dir, e.name);
            && ValidPath(child) && child != "." && '/' !in e.name
            && (e.dir <==> IsDir(files, child))
            && (!e.dir <==> child in files)
            && (!e.dir ==> |files[child]| == e.size)
  {
    assert Reports(files, dir, e);
    var p :| p in files && Under(p, dir) && EntryOf(Rest(p, dir), files[p]) == e;
    var h := Head(Rest(p, dir));
    CutHead(Rest(p, dir));
    NoEmptyHead(files, dir, p);
    JoinIsValid(files, dir, p);
    assert h == e.name;
    UnderChild(dir, h, p);
    FileChild(dir, h, p);
    FileOrDir(files, Join(dir, h));
  }

  /** And every child there is, is listed. */
  lemma ListingIsComplete(files: map<string, Content>, dir: string, es: seq<Entry>, h: string)
    requires Tree(files) && ValidPath(dir) && Listing(files, dir, es)
    requires '/' !in h && Join(dir, h) != "." && (Join(dir, h) in files || IsDir(files, Join(dir, h)))
    ensures h in EntryNames(es)
  {
    var child := Join(dir, h);
    if child in files {
      FileChild(dir, h, child);
    } else {
      var p :| p in files && Under(p, child);
      UnderChild(dir, h, p);
    }
  }

  // ---------- walking ----------

  /** Element by element: the first difference decides, and a path comes before what is below it. */
  ghost predicate PathLess(p: string, q: string) {
    var a, b := Split(p, '/'), Split(q, '/');
    || a < b
    || exists k: nat :: FirstDifference(a, b, k) && Precedes(a[k], b[k])
  }

  ghost predicate FirstDifference(a: seq<string>, b: seq<string>, k: nat) {
    k < |a| && k < |b| && a[..k] == b[..k] && a[k] != b[k]
  }

  lemma OneFirstDifference(a: seq<string>, b: seq<string>, k: nat, j: nat)
    requires FirstDifference(a, b, k) && FirstDifference(b, a, j)
    ensures k == j
  {
    assert forall i :: 0 <= i < k ==> a[i] == a[..k][i] == b[..k][i] == b[i];
    assert forall i :: 0 <= i < j ==> a[i] == a[..j][i] == b[..j][i] == b[i];
  }

  lemma PathOrderIsStrict(p: string, q: string)
    requires PathLess(p, q)
    ensures p != q && !PathLess(q, p)
  {
    var a, b := Split(p, '/'), Split(q, '/');
    if k: nat :| FirstDifference(a, b, k) && Precedes(a[k], b[k]) {
      forall j: nat | FirstDifference(b, a, j) ensures !Precedes(b[j], a[j]) {
        OneFirstDifference(a, b, k, j);
        if Precedes(b[j], a[j]) { PrecedesAntisym(a[k], b[k]); }
      }
    }
  }

  lemma HeadsDecide(files: map<string, Content>, dir: string, p: string, q: string)
    requires Tree(files) && ValidPath(dir)
    requires p in files && q in files && Under(p, dir) && Under(q, dir)
    requires Head(Rest(p, dir)) != Head(Rest(q, dir)) && Precedes(Head(Rest(p, dir)), Head(Rest(q, dir)))
    ensures PathLess(p, q)
  {
    NoEmptyHead(files, dir, p);
    NoEmptyHead(files, dir, q);
    var d := if dir == "." then [] else Split(dir, '/');
    var a, b := Split(p, '/'), Split(q, '/');
    assert a[..|d|] == d == b[..|d|];
    assert a[|d|] == Head(Rest(p, dir)) && b[|d|] == Head(Rest(q, dir));
    assert FirstDifference(a, b, |d|);
  }

  /** These are exactly the stored paths below dir, each once, in path order. */
  ghost predicate Visits(files: map<string, Content>, dir: string, visited: seq<string>) {
    && (forall p :: p in visited <==> p in files && Under(p, dir))
    && forall i, j :: 0 <= i < j < |visited| ==> PathLess(visited[i], visited[j])
  }

  /** Partway through the entries. */
  ghost predicate Visited(files: map<string, Content>, dir: string, names: seq<string>, visited: seq<string>) {
    && (forall p :: p in visited <==> p in files && Under(p, dir) && Head(Rest(p, dir)) in names)
    && forall i, j :: 0 <= i < j < |visited| ==> PathLess(visited[i], visited[j])
  }

  lemma VisitedMore(files: map<string, Content>, dir: string, names: seq<string>, visited: seq<string>, h: string,
      more: seq<string>)
    requires Tree(files) && ValidPath(dir)
    requires Visited(files, dir, names, visited) && Visited(files, dir, [h], more)
    requires forall name <- names :: name != h && Precedes(name, h)
    ensures Visited(files, dir, names + [h], visited + more)
  {
    var all := visited + more;
    forall i, j | 0 <= i < j < |all| ensures PathLess(all[i], all[j]) {
      if i < |visited| && j >= |visited| {
        assert all[i] in visited && all[j] in more;
        HeadsDecide(files, dir, all[i], all[j]);
      }
    }
    hide PathLess, Tree;
  }

  lemma VisitedChild(files: map<string, Content>, dir: string, h: string, sub: seq<string>)
    requires Tree(files) && ValidPath(dir)
    requires '/' !in h && Join(dir, h) != "." && Join(dir, h) !in files && Visits(files, Join(dir, h), sub)
    ensures Visited(files, dir, [h], sub)
  {
    hide PathLess;
    forall p ensures p in sub <==> p in files && Under(p, dir) && Head(Rest(p, dir)) in [h] {
      UnderChild(dir, h, p);
      FileChild(dir, h, p);
    }
  }

  lemma VisitedFile(files: map<string, Content>, dir: string, h: string)
    requires Tree(files) && ValidPath(dir)
    requires '/' !in h && Join(dir, h) != "." && Join(dir, h) in files
    ensures Visited(files, dir, [h], [Join(dir, h)])
  {
    hide PathLess;
    var child := Join(dir, h);
    forall p ensures p in [child] <==> p in files && Under(p, dir) && Head(Rest(p, dir)) in [h] {
      FileChild(dir, h, p);
      UnderChild(dir, h, p);
      if p in files && Under(p, child) {
        FileOrDir(files, child);
      }
    }
  }

  lemma Deeper(files: map<string, Content>, dir: string, h: string, bound: nat)
    requires '/' !in h && h != "" && Join(dir, h) != "." && IsDir(files, Join(dir, h))
    requires forall p <- files :: |p| <= bound
    ensures |PrefixOf(dir)| < |PrefixOf(Join(dir, h))| <= bound
  {
    var p :| p in files && Under(p, Join(dir, h));
    assert PrefixOf(Join(dir, h)) == PrefixOf(dir) + h + "/";
  }

  /** A recursive walk by ReadDir, as a consumer of the snapshot makes it. */
  method Walk(files: map<string, Content>, dir: string, ghost bound: nat) returns (visited: seq<string>)
    requires Tree(files) && ValidPath(dir) && IsDir(files, dir)
    requires forall p <- files :: |p| <= bound
    ensures Visits(files, dir, visited)
    decreases bound - |PrefixOf(dir)|
  {
    hide Tree, ValidPath, IsDir, Listing, Visited;
    visited := [];
    var listing := ReadDir(files, dir);
    var es := listing.value;
    ghost var names := EntryNames(es);
    NothingVisited(files, dir);
    for i := 0 to |es|
      invariant Visited(files, dir, names[..i], visited)
    {
      var e := es[i];
      var child := Join(dir, e.name);
      ListingAgrees(files, dir, es, e);
      ListedInOrder(files, dir, es, i);
      if e.dir {
        Deeper(files, dir, e.name, bound);
        var sub := Walk(files, child, bound);
        VisitedChild(files, dir, e.name, sub);
        VisitedMore(files, dir, names[..i], visited, e.name, sub);
        visited := visited + sub;
      } else {
        VisitedFile(files, dir, e.name);
        VisitedMore(files, dir, names[..i], visited, e.name, [child]);
        visited := visited + [child];
      }
      assert names[..i + 1] == names[..i] + [e.name];
    }
    assert names[..|es|] == names;
    VisitedAll(files, dir, es, visited);
  }

  lemma NothingVisited(files: map<string, Content>, dir: string)
    ensures Visited(files, dir, [], [])
  {
  }

  lemma VisitedAll(files: map<string, Content>, dir: string, es: seq<Entry>, visited: seq<string>)
    requires Listing(files, dir, es) && Visited(files, dir, EntryNames(es), visited)
    ensures Visits(files, dir, visited)
  {
    hide PathLess, SortedNames, Reports;
  }

  lemma ListedInOrder(files: map<string, Content>, dir: string, es: seq<Entry>, i: nat)
    requires Listing(files, dir, es) && i < |es|
    requires Tree(files) && ValidPath(dir)
    ensures forall name <- EntryNames(es)[..i] :: name != es[i].name && Precedes(name, es[i].name)
    ensures es[i].name != ""
  {
    var names := EntryNames(es);
    forall name <- names[..i] ensures name != es[i].name && Precedes(name, es[i].name) {
      var j :| 0 <= j < i && names[j] == name;
      assert names[i] == es[i].name;
    }
    assert es[i] in es && Reports(files, dir, es[i]);
    var p :| p in files && Under(p, dir) && EntryOf(Rest(p, dir), files[p]) == es[i];
    NoEmptyHead(files, dir, p);
    CutHead(Rest(p, dir));
  }

  /** From the root, a walk visits every stored path, each once. */
  lemma EverythingIsUnderRoot(files: map<string, Content>, visited: seq<string>)
    requires Visits(files, ".", visited)
    ensures forall p :: p in visited <==> p in files
    ensures Distinct(visited)
  {
    forall i, j | 0 <= i < j < |visited| ensures visited[i] != visited[j] {
      PathOrderIsStrict(visited[i], visited[j]);
    }
  }

  // ---------- paging ----------

  function Min(a: nat, b: nat): nat {
    if a < b then a else b
  }

  datatype Page = Page(entries: seq<Entry>, eof: bool)

  /** Where a read of n starting at `offset` stops. */
  function Stop(length: nat, offset: nat, n: int): nat
    requires offset <= length
  {
    if n <= 0 then length else Min(offset + n, length)
  }

  class OpenTreeDir {
    const entries: seq<Entry>
    var offset: nat

    constructor (entries: seq<Entry>)
      ensures this.entries == entries && offset == 0
    {
      this.entries := entries;
      offset := 0;
    }

    method ReadDir(n: int) returns (page: Page)
      requires offset <= |entries|
      modifies this
      ensures old(offset) <= offset <= |entries| && offset == Stop(|entries|, old(offset), n)
      ensures page.entries == entries[old(offset)..offset]
      ensures page.eof <==> n > 0 && old(offset) == |entries|
    {
      var remaining := entries[offset..];
      if n <= 0 {
        offset := |entries|;
        return Page(remaining, false);
      }
      if |remaining| == 0 {
        return Page([], true);
      }
      remaining := remaining[..Min(n, |remaining|)];
      offset := offset + |remaining|;
      return Page(remaining, false);
    }

    /** A consumer that asks page by page, in whatever sizes, and keeps what it is given. */
    method ReadPages(sizes: seq<int>) returns (all: seq<Entry>, ended: bool)
      requires offset <= |entries|
      modifies this
      ensures old(offset) <= offset <= |entries|
      ensures all == entries[old(offset)..offset]
      ensures ended ==> offset == |entries|
      ensures (exists n <- sizes :: n <= 0) ==> offset == |entries|
      ensures Asked(sizes) >= |entries| - old(offset) ==> offset == |entries|
    {
      all, ended := [], false;
      ghost var start := offset;
      for i := 0 to |sizes|
        invariant start <= offset <= |entries| && all == entries[start..offset]
        invariant ended ==> offset == |entries|
        invariant forall j :: 0 <= j < i && sizes[j] <= 0 ==> offset == |entries|
        invariant offset == |entries| || offset >= start + Asked(sizes[..i])
      {
        assert sizes[..i + 1][..i] == sizes[..i] && sizes[..i + 1] == sizes[..i] + [sizes[i]];
        var page := ReadDir(sizes[i]);
        all := all + page.entries;
        ended := page.eof;
      }
      assert sizes[..|sizes|] == sizes;
    }
  }

  /** How many entries these pages ask for. */
  function Asked(sizes: seq<int>): nat {
    if sizes == [] then 0
    else
      var n := |sizes| - 1;
      Asked(sizes[..n]) + if sizes[n] > 0 then sizes[n] else 0
  }
}
