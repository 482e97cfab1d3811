/** The pin digest of a resolved tree: a manifest of every path and its content's hash. */
module Digest {
  import opened Finite
  import opened Ordering
  import opened TreeFS

  /** Hex-encoded SHA-256, as far as the manifest is concerned: so many characters, none of them a
      line break. */
  ghost predicate HexSum(sum: Content -> string, width: nat) {
    forall data :: |sum(data)| == width && '\n' !in sum(data)
  }

  function Line(sum: Content -> string, files: map<string, Content>, p: string): string
    requires p in files
  {
    sum(files[p]) + " " + p
  }

  /** The manifest of these paths, in this order. */
  function Manifest(sum: Content -> string, files: map<string, Content>, paths: seq<string>): string
    requires forall p <- paths :: p in files
  {
    if paths == [] then ""
    else
      var n := |paths| - 1;
      Manifest(sum, files, paths[..n]) + Line(sum, files, paths[n]) + "\n"
  }

  /** What treeDigest feeds its hash. The paths come out of the map in any order. */
  method TreeManifest(files: map<string, Content>, sum: Content -> string) returns (m: string, ghost paths: seq<string>)
    ensures SortedNames(paths) && Elements(paths) == files.Keys
    ensures (forall p <- paths :: p in files) && m == Manifest(sum, files, paths)
  {
    var sorted := SortedKeys(files.Keys);
    paths := sorted;
    forall p <- sorted ensures p in files {
      assert p in Elements(sorted);
    }
    m := "";
    for i := 0 to |sorted|
      invariant m == Manifest(sum, files, sorted[..i])
    {
      assert sorted[..i + 1][..i] == sorted[..i];
      m := m + (sum(files[sorted[i]]) + " " + sorted[i] + "\n");
    }
    assert sorted[..|sorted|] == sorted;
  }

  /** The listing treeDigest goes by is the only one there is: the manifest is a function of the
      tree, whatever order its paths come in. */
  lemma ManifestIsCanonical(sum: Content -> string, files: map<string, Content>, paths: seq<string>,
      others: seq<string>)
    requires SortedNames(paths) && Elements(paths) == files.Keys
    requires SortedNames(others) && Elements(others) == files.Keys
    ensures paths == others
  {
    SortedNamesUnique(paths, others);
  }

  lemma LastLine(init: string, line: string, init': string, line': string)
    requires '\n' !in line && '\n' !in line'
    requires init == [] || init[|init| - 1] == '\n'
    requires init' == [] || init'[|init'| - 1] == '\n'
    requires init + line + "\n" == init' + line' + "\n"
    ensures init == init' && line == line'
  {
    var a, b := init + line, init' + line';
    assert a == (a + "\n")[..|a|] && b == (b + "\n")[..|b|];
    assert a == b;
    assert forall i :: |init| <= i < |a| ==> a[i] != '\n';
    assert forall i :: |init'| <= i < |b| ==> b[i] != '\n';
    assert init' != [] ==> b[|init'| - 1] == '\n' == a[|init'| - 1];
    assert init != [] ==> a[|init| - 1] == '\n' == b[|init| - 1];
    assert |init| == |init'|;
    assert init == a[..|init|] && line == a[|init|..];
  }

  lemma ManifestEnds(sum: Content -> string, files: map<string, Content>, paths: seq<string>)
    requires forall p <- paths :: p in files
    ensures var m := Manifest(sum, files, paths); m == [] || m[|m| - 1] == '\n'
    ensures Manifest(sum, files, paths) == [] <==> paths == []
  {
  }

  ghost predicate NoNewline(paths: seq<string>) {
    forall p <- paths :: '\n' !in p
  }

  /** A manifest is its last line and what comes before it. */
  lemma ManifestSplits(sum: Content -> string, width: nat, files: map<string, Content>, paths: seq<string>)
    requires HexSum(sum, width) && paths != []
    requires (forall p <- paths :: p in files) && NoNewline(paths)
    ensures var init, p := paths[..|paths| - 1], paths[|paths| - 1];
            && paths == init + [p] && p in files && (forall q <- init :: q in files) && NoNewline(init)
            && (Manifest(sum, files, init) == [] ||
                Manifest(sum, files, init)[|Manifest(sum, files, init)| - 1] == '\n')
            && '\n' !in Line(sum, files, p)
            && Manifest(sum, files, paths) == Manifest(sum, files, init) + Line(sum, files, p) + "\n"
  {
    var n := |paths| - 1;
    assert paths[n] in paths;
    forall q <- paths[..n] ensures q in paths {
    }
    ManifestEnds(sum, files, paths[..n]);
  }

  /** A manifest tells which paths it lists, and each one's hash. */
  lemma {:induction false} ManifestTells(sum: Content -> string, width: nat, files: map<string, Content>,
      paths: seq<string>, others: map<string, Content>, paths': seq<string>)
    requires HexSum(sum, width)
    requires (forall p <- paths :: p in files) && (forall p <- paths' :: p in others)
    requires NoNewline(paths) && NoNewline(paths')
    requires Manifest(sum, files, paths) == Manifest(sum, others, paths')
    ensures paths == paths'
    ensures forall p <- paths :: sum(files[p]) == sum(others[p])
    decreases |paths|
  {
    hide Manifest, NoNewline, HexSum, Line;
    ManifestEnds(sum, files, paths);
    ManifestEnds(sum, others, paths');
    if paths != [] {
      var init, init' := paths[..|paths| - 1], paths'[..|paths'| - 1];
      var p, p' := paths[|paths| - 1], paths'[|paths'| - 1];
      ManifestSplits(sum, width, files, paths);
      ManifestSplits(sum, width, others, paths');
      LastLine(Manifest(sum, files, init), Line(sum, files, p), Manifest(sum, others, init'), Line(sum, others, p'));
      SameLine(sum, width, files, p, others, p');
      ManifestTells(sum, width, files, init, others, init');
    }
  }

  lemma SameLine(sum: Content -> string, width: nat, files: map<string, Content>, p: string,
      others: map<string, Content>, p': string)
    requires HexSum(sum, width) && p in files && p' in others
    requires Line(sum, files, p) == Line(sum, others, p')
    ensures p == p' && sum(files[p]) == sum(others[p'])
  {
    var h, h' := sum(files[p]), sum(others[p']);
    assert |h| == |h'| == width;
    hide HexSum;
    assert h == (h + " " + p)[..width] && p == (h + " " + p)[width + 1..];
    assert h' == (h' + " " + p')[..width] && p' == (h' + " " + p')[width + 1..];
  }

  /** The contents of two trees do not collide under the hash. */
  ghost predicate NoCollision(sum: Content -> string, a: map<string, Content>, b: map<string, Content>) {
    forall p, q :: p in a && q in b && sum(a[p]) == sum(b[q]) ==> a[p] == b[q]
  }

  /** Two trees with the same manifest are the same tree. */
  lemma {:induction false} ManifestIsInjective(sum: Content -> string, width: nat, a: map<string, Content>,
      paths: seq<string>, b: map<string, Content>, paths': seq<string>)
    requires HexSum(sum, width) && NoCollision(sum, a, b)
    requires Elements(paths) == a.Keys && Elements(paths') == b.Keys
    requires NoNewline(paths) && NoNewline(paths')
    requires (forall p <- paths :: p in a) && (forall p <- paths' :: p in b)
    requires Manifest(sum, a, paths) == Manifest(sum, b, paths')
    ensures a == b
  {
    ManifestTells(sum, width, a, paths, b, paths');
    forall p | p in a ensures a[p] == b[p] {
      assert p in Elements(paths);
    }
  }

  /** Without that, they need not be: a path that holds a line break can pass for two. */
  lemma NewlineConfuses(sum: Content -> string, x: Content, y: Content)
    ensures var two := map["a" := x, "b" := y];
            var one := map["a\n" + sum(y) + " b" := x];
            && two != one
            && Manifest(sum, two, ["a", "b"]) == Manifest(sum, one, ["a\n" + sum(y) + " b"])
  {
    hide Manifest;
    var two := map["a" := x, "b" := y];
    var long := "a\n" + sum(y) + " b";
    var one := map[long := x];
    assert |two.Keys| == |{"a", "b"}| == 2 by { assert two.Keys == {"a", "b"}; }
    assert one.Keys == {long};
    assert [] + ["a"] == ["a"] && ["a"] + ["b"] == ["a", "b"] && [] + [long] == [long];
    ManifestSnoc(sum, two, [], "a");
    ManifestSnoc(sum, two, ["a"], "b");
    ManifestSnoc(sum, one, [], long);
    TwoLinesInOne(sum(x), sum(y));
  }

  lemma ManifestSnoc(sum: Content -> string, files: map<string, Content>, paths: seq<string>, p: string)
    requires p in files && forall q <- paths :: q in files
    ensures Manifest(sum, files, []) == ""
    ensures Manifest(sum, files, paths + [p]) == Manifest(sum, files, paths) + (sum(files[p]) + " " + p) + "\n"
  {
    assert (paths + [p])[..|paths|] == paths;
  }

  lemma TwoLinesInOne(x: string, y: string)
    ensures var first := "" + (x + " " + "a") + "\n";
            first + (y + " " + "b") + "\n" == "" + (x + " " + ("a\n" + y + " b")) + "\n"
  {
    assert "a\n" + y + " b" == "a" + "\n" + y + " " + "b";
  }
}
