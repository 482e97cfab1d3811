/** A Corefile seen as a document: plain lines and the blocks of a set of cubes.
    Splicing the text of a well-formed document is a map update on its blocks. */
module CorefileDoc {
  import opened Corefile
  import opened CorefileLaws

  datatype Item = Plain(line: string) | Block(cube: string, body: seq<string>)

  /** The lines above the default server block's opening line, that line, and the rest. */
  datatype Doc = Doc(head: seq<string>, open: string, items: seq<Item>)

  function ItemLines(item: Item): seq<string> {
    match item
    case Plain(line) => [line]
    case Block(_, body) => body
  }

  function Flatten(items: seq<Item>): seq<string> {
    if items == [] then [] else ItemLines(items[0]) + Flatten(items[1..])
  }

  function Lines(doc: Doc): seq<string> {
    doc.head + [doc.open] + Flatten(doc.items)
  }

  /** The lines that belong to no cube's block. */
  function PlainOf(items: seq<Item>): seq<string> {
    if items == [] then []
    else (if items[0].Plain? then [items[0].line] else []) + PlainOf(items[1..])
  }

  function PlainLines(doc: Doc): seq<string> {
    doc.head + [doc.open] + PlainOf(doc.items)
  }

  function BlocksOf(items: seq<Item>): map<string, seq<string>> {
    if items == [] then map[]
    else if items[0].Block? then BlocksOf(items[1..])[items[0].cube := items[0].body]
    else BlocksOf(items[1..])
  }

  // ---------- well-formed documents ----------

  /** No marker of the cubes. */
  ghost predicate Clean(line: string, cubes: set<string>) {
    forall cube <- cubes :: !BeginOf(cube)(line) && !EndOf(cube)(line)
  }

  ghost predicate IntactBody(body: seq<string>, cube: string, cubes: set<string>) {
    && cube in cubes
    && |body| >= 2
    && Only(body, BeginOf(cube), 0) && Only(body, EndOf(cube), |body| - 1)
    && (forall other <- cubes :: other != cube ==> NoMarkers(body, other))
    && Nowhere(body, ServerOpen())
  }

  ghost predicate IntactItem(item: Item, cubes: set<string>) {
    match item
    case Plain(line) => Clean(line, cubes) && !ServerOpen()(line)
    case Block(cube, body) => IntactBody(body, cube, cubes)
  }

  ghost predicate IntactItems(items: seq<Item>, cubes: set<string>) {
    && (forall i :: 0 <= i < |items| ==> IntactItem(items[i], cubes))
    && (forall i, j :: 0 <= i < j < |items| && items[i].Block? && items[j].Block? ==> items[i].cube != items[j].cube)
  }

  /** One server-block opening line, and below it the cubes' blocks: intact, disjoint, one a cube. */
  ghost predicate WellFormed(doc: Doc, cubes: set<string>) {
    && (forall i :: 0 <= i < |doc.head| ==> Clean(doc.head[i], cubes) && !ServerOpen()(doc.head[i]))
    && Clean(doc.open, cubes) && ServerOpen()(doc.open)
    && IntactItems(doc.items, cubes)
  }

  // ---------- the splice on documents ----------

  ghost predicate BlockAtItem(items: seq<Item>, cube: string, i: int) {
    0 <= i < |items| && items[i].Block? && items[i].cube == cube
  }

  ghost function SpliceItems(items: seq<Item>, cube: string, block: seq<string>): seq<Item> {
    if exists i :: BlockAtItem(items, cube, i) then
      var i :| BlockAtItem(items, cube, i);
      items[i := Block(cube, block)]
    else
      [Block(cube, block)] + items
  }

  ghost function SpliceDoc(doc: Doc, cube: string, block: seq<string>): Doc {
    doc.(items := SpliceItems(doc.items, cube, block))
  }

  // ---------- flattening ----------

  lemma {:induction false} FlattenConcat(xs: seq<Item>, ys: seq<Item>)
    ensures Flatten(xs + ys) == Flatten(xs) + Flatten(ys)
  {
    if xs == [] {
      assert xs + ys == ys;
    } else {
      assert (xs + ys)[1..] == xs[1..] + ys;
      FlattenConcat(xs[1..], ys);
    }
  }

  lemma {:induction false} FlattenNowhere(items: seq<Item>, p: string -> bool)
    requires forall i :: 0 <= i < |items| ==> Nowhere(ItemLines(items[i]), p)
    ensures Nowhere(Flatten(items), p)
  {
    if items != [] {
      assert Nowhere(ItemLines(items[0]), p);
      FlattenNowhere(items[1..], p);
    }
  }

  lemma {:induction false} FlattenAt(items: seq<Item>, i: nat)
    requires i < |items|
    ensures Flatten(items) == Flatten(items[..i]) + ItemLines(items[i]) + Flatten(items[i + 1..])
  {
    FlattenConcat(items[..i], [items[i]] + items[i + 1..]);
    assert items[..i] + ([items[i]] + items[i + 1..]) == items;
    assert ([items[i]] + items[i + 1..])[1..] == items[i + 1..];
  }

  lemma {:induction false} NowhereConcat(xs: seq<string>, ys: seq<string>, p: string -> bool)
    ensures Nowhere(xs + ys, p) <==> Nowhere(xs, p) && Nowhere(ys, p)
  {
    assert forall i :: 0 <= i < |xs| ==> (xs + ys)[i] == xs[i];
    assert forall i :: 0 <= i < |ys| ==> (xs + ys)[|xs| + i] == ys[i];
  }

  lemma {:induction false} OnlyInMiddle(pre: seq<string>, body: seq<string>, post: seq<string>, p: string -> bool,
      k: int)
    requires Nowhere(pre, p) && Only(body, p, k) && Nowhere(post, p)
    ensures Only(pre + body + post, p, |pre| + k)
  {
  }

  lemma {:induction false} OnlyInFirst(xs: seq<string>, ys: seq<string>, p: string -> bool, k: int)
    requires Only(xs, p, k) && Nowhere(ys, p)
    ensures Only(xs + ys, p, k)
  {
  }

  lemma {:induction false} RegionInMiddle(pre: seq<string>, body: seq<string>, post: seq<string>, cube: string)
    requires NoMarkers(pre, cube) && NoMarkers(post, cube)
    requires |body| >= 2 && Only(body, BeginOf(cube), 0) && Only(body, EndOf(cube), |body| - 1)
    requires !Nowhere(pre, ServerOpen())
    ensures BlockAtLine(pre + body + post, cube, |pre|, body)
  {
    OnlyInMiddle(pre, body, post, BeginOf(cube), 0);
    OnlyInMiddle(pre, body, post, EndOf(cube), |body| - 1);
    assert (pre + body + post)[..|pre|] == pre;
  }

  lemma {:induction false} PatchMiddle(pre: seq<string>, body: seq<string>, post: seq<string>, block: seq<string>)
    ensures Patch(pre + body + post, |pre|, |pre| + |body|, block) == pre + block + post
  {
    assert (pre + body + post)[..|pre|] == pre;
    assert (pre + body + post)[|pre| + |body|..] == post;
  }

  /** Items of other cubes hold no marker of this one. */
  lemma {:induction false} OtherItemsClean(items: seq<Item>, cube: string, cubes: set<string>)
    requires IntactItems(items, cubes) && cube in cubes
    requires forall i :: !BlockAtItem(items, cube, i)
    ensures NoMarkers(Flatten(items), cube)
  {
    forall i | 0 <= i < |items|
      ensures Nowhere(ItemLines(items[i]), BeginOf(cube)) && Nowhere(ItemLines(items[i]), EndOf(cube))
    {
      assert IntactItem(items[i], cubes) && !BlockAtItem(items, cube, i);
    }
    FlattenNowhere(items, BeginOf(cube));
    FlattenNowhere(items, EndOf(cube));
  }

  lemma {:induction false} ItemsOpenNothing(items: seq<Item>, cubes: set<string>)
    requires IntactItems(items, cubes)
    ensures Nowhere(Flatten(items), ServerOpen())
  {
    forall i | 0 <= i < |items| ensures Nowhere(ItemLines(items[i]), ServerOpen()) {
      assert IntactItem(items[i], cubes);
    }
    FlattenNowhere(items, ServerOpen());
  }

  lemma {:induction false} HeadClean(doc: Doc, cubes: set<string>, cube: string)
    requires WellFormed(doc, cubes) && cube in cubes
    ensures NoMarkers(doc.head + [doc.open], cube)
    ensures Only(doc.head + [doc.open], ServerOpen(), |doc.head|)
  {
    var top := doc.head + [doc.open];
    forall i | 0 <= i < |top| ensures Clean(top[i], cubes) {
      assert top[i] == if i < |doc.head| then doc.head[i] else doc.open;
    }
  }

  function Above(doc: Doc, i: nat): seq<string>
    requires i <= |doc.items|
  {
    doc.head + [doc.open] + Flatten(doc.items[..i])
  }

  /** Where an item's lines are in the text. */
  lemma {:induction false} ItemInText(doc: Doc, i: nat)
    requires i < |doc.items|
    ensures Lines(doc) == Above(doc, i) + ItemLines(doc.items[i]) + Flatten(doc.items[i + 1..])
  {
    FlattenAt(doc.items, i);
  }

  lemma OnlyIsSome(lines: seq<string>, p: string -> bool, i: int)
    requires Only(lines, p, i)
    ensures !Nowhere(lines, p)
  {
  }

  /** A cube's block is its one region in the text. */
  lemma {:induction false} BlockInText(doc: Doc, cubes: set<string>, cube: string, i: nat)
    requires WellFormed(doc, cubes) && BlockAtItem(doc.items, cube, i)
    ensures BlockAtLine(Lines(doc), cube, |Above(doc, i)|, doc.items[i].body)
  {
    var items := doc.items;
    hide Flatten, Nowhere, Only, BlockAtLine, WellFormed, IntactItems, IntactItem, Lines, Above, NoMarkers, ItemLines;
    BlockMarked(doc, cubes, cube, i);
    ItemInText(doc, i);
    AboveIsClean(doc, cubes, cube, i);
    BelowIsClean(doc, cubes, cube, i);
    RegionInMiddle(Above(doc, i), items[i].body, Flatten(items[i + 1..]), cube);
  }

  lemma BlockMarked(doc: Doc, cubes: set<string>, cube: string, i: nat)
    requires WellFormed(doc, cubes) && BlockAtItem(doc.items, cube, i)
    ensures cube in cubes && ItemLines(doc.items[i]) == doc.items[i].body
    ensures var body := doc.items[i].body;
            |body| >= 2 && Only(body, BeginOf(cube), 0) && Only(body, EndOf(cube), |body| - 1)
  {
    assert IntactItem(doc.items[i], cubes);
    hide Only, Nowhere;
  }

  lemma {:induction false} AboveIsClean(doc: Doc, cubes: set<string>, cube: string, i: nat)
    requires WellFormed(doc, cubes) && BlockAtItem(doc.items, cube, i) && cube in cubes
    ensures NoMarkers(Above(doc, i), cube) && !Nowhere(Above(doc, i), ServerOpen())
  {
    var top, rest := doc.head + [doc.open], Flatten(doc.items[..i]);
    OtherItemsClean(doc.items[..i], cube, cubes);
    hide Flatten, Nowhere, Only;
    HeadClean(doc, cubes, cube);
    NowhereConcat(top, rest, BeginOf(cube));
    NowhereConcat(top, rest, EndOf(cube));
    NowhereConcat(top, rest, ServerOpen());
    OnlyIsSome(top, ServerOpen(), |doc.head|);
  }

  lemma {:induction false} BelowIsClean(doc: Doc, cubes: set<string>, cube: string, i: nat)
    requires WellFormed(doc, cubes) && BlockAtItem(doc.items, cube, i) && cube in cubes
    ensures NoMarkers(Flatten(doc.items[i + 1..]), cube)
  {
    hide Flatten, Nowhere, Only;
    OtherItemsClean(doc.items[i + 1..], cube, cubes);
  }

  /** The refinement: splicing a well-formed document's text is splicing the document. */
  lemma {:induction false} SpliceRefinesDoc(doc: Doc, cubes: set<string>, cube: string, block: seq<string>)
    requires WellFormed(doc, cubes) && cube in cubes
    requires CubeBlock(block, cube)
    ensures Splices(Lines(doc), cube, block, Lines(SpliceDoc(doc, cube, block)))
    ensures WellFormed(SpliceDoc(doc, cube, block), cubes)
  {
    if exists i :: BlockAtItem(doc.items, cube, i) {
      ReplaceRefines(doc, cubes, cube, block);
    } else {
      InsertRefines(doc, cubes, cube, block);
    }
  }

  lemma {:induction false} CubeBlockIsIntact(block: seq<string>, cube: string, cubes: set<string>)
    requires CubeBlock(block, cube) && cube in cubes
    ensures IntactBody(block, cube, cubes)
  {
    CubeBlockMarkers(block, cube, cube);
    forall other <- cubes ensures other != cube ==> NoMarkers(block, other) {
      CubeBlockMarkers(block, cube, other);
    }
  }

  lemma {:induction false} ReplaceRefines(doc: Doc, cubes: set<string>, cube: string, block: seq<string>)
    requires WellFormed(doc, cubes) && cube in cubes
    requires CubeBlock(block, cube)
    requires exists i :: BlockAtItem(doc.items, cube, i)
    ensures Splices(Lines(doc), cube, block, Lines(SpliceDoc(doc, cube, block)))
    ensures WellFormed(SpliceDoc(doc, cube, block), cubes)
  {
    var i: nat :| BlockAtItem(doc.items, cube, i);
    SpliceItemsAt(doc.items, cubes, cube, block, i);
    ReplacedItems(doc, cubes, cube, block, i);
    BlockInText(doc, cubes, cube, i);
    SplicesAtLine(Lines(doc), cube, |Above(doc, i)|, doc.items[i].body, block);
  }

  lemma {:induction false} SpliceItemsAt(items: seq<Item>, cubes: set<string>, cube: string, block: seq<string>, i: nat)
    requires IntactItems(items, cubes) && BlockAtItem(items, cube, i)
    ensures SpliceItems(items, cube, block) == items[i := Block(cube, block)]
  {
    assert forall j :: BlockAtItem(items, cube, j) ==> j == i;
  }

  lemma {:induction false} SplicesAtLine(lines: seq<string>, cube: string, b: int, body: seq<string>,
      block: seq<string>)
    requires BlockAtLine(lines, cube, b, body)
    ensures Splices(lines, cube, block, Patch(lines, b, b + |body|, block))
  {
    assert Replaces(lines, cube, b, b + |body| - 1);
  }

  lemma {:induction false} ReplacedItems(doc: Doc, cubes: set<string>, cube: string, block: seq<string>, i: nat)
    requires WellFormed(doc, cubes) && BlockAtItem(doc.items, cube, i)
    requires CubeBlock(block, cube) && cube in cubes
    ensures var doc' := doc.(items := doc.items[i := Block(cube, block)]);
            var b := |Above(doc, i)|;
            && WellFormed(doc', cubes)
            && b + |doc.items[i].body| <= |Lines(doc)|
            && Lines(doc') == Patch(Lines(doc), b, b + |doc.items[i].body|, block)
  {
    var doc' := doc.(items := doc.items[i := Block(cube, block)]);
    ReplacedIntact(doc.items, cubes, cube, block, i);
    hide IntactItems, CubeBlock, Clean, ServerOpen, Lines, Flatten, IntactItem;
    ItemInText(doc, i);
    ItemInText(doc', i);
    assert doc'.items[..i] == doc.items[..i] && doc'.items[i + 1..] == doc.items[i + 1..];
    PatchMiddle(Above(doc, i), doc.items[i].body, Flatten(doc.items[i + 1..]), block);
  }

  lemma ReplacedIntact(items: seq<Item>, cubes: set<string>, cube: string, block: seq<string>, i: nat)
    requires IntactItems(items, cubes) && BlockAtItem(items, cube, i)
    requires CubeBlock(block, cube) && cube in cubes
    ensures IntactItems(items[i := Block(cube, block)], cubes)
  {
    hide IntactBody, CubeBlock;
    CubeBlockIsIntact(block, cube, cubes);
    IntactBlock(cube, block, cubes);
    hide IntactItem;
  }

  lemma {:induction false} InsertRefines(doc: Doc, cubes: set<string>, cube: string, block: seq<string>)
    requires WellFormed(doc, cubes) && cube in cubes
    requires CubeBlock(block, cube)
    requires !exists i :: BlockAtItem(doc.items, cube, i)
    ensures Splices(Lines(doc), cube, block, Lines(SpliceDoc(doc, cube, block)))
    ensures WellFormed(SpliceDoc(doc, cube, block), cubes)
  {
    var o := |doc.head|;
    InsertsAtOpen(doc, cubes, cube);
    var items' := [Block(cube, block)] + doc.items;
    InsertedItems(doc.items, cubes, cube, block);
    assert items'[1..] == doc.items;
    assert Lines(SpliceDoc(doc, cube, block)) == Patch(Lines(doc), o + 1, o + 1, block);
  }

  lemma {:induction false} InsertsAtOpen(doc: Doc, cubes: set<string>, cube: string)
    requires WellFormed(doc, cubes) && cube in cubes
    requires !exists i :: BlockAtItem(doc.items, cube, i)
    ensures Inserts(Lines(doc), cube, |doc.head|)
  {
    HeadClean(doc, cubes, cube);
    OtherItemsClean(doc.items, cube, cubes);
    ItemsOpenNothing(doc.items, cubes);
    NowhereConcat(doc.head + [doc.open], Flatten(doc.items), BeginOf(cube));
    NowhereConcat(doc.head + [doc.open], Flatten(doc.items), EndOf(cube));
    OnlyInFirst(doc.head + [doc.open], Flatten(doc.items), ServerOpen(), |doc.head|);
  }

  lemma IntactBlock(cube: string, block: seq<string>, cubes: set<string>)
    ensures IntactItem(Block(cube, block), cubes) <==> IntactBody(block, cube, cubes)
  {
  }

  lemma {:induction false} InsertedItems(items: seq<Item>, cubes: set<string>, cube: string, block: seq<string>)
    requires IntactItems(items, cubes) && cube in cubes
    requires CubeBlock(block, cube)
    requires !exists i :: BlockAtItem(items, cube, i)
    ensures IntactItems([Block(cube, block)] + items, cubes)
  {
    CubeBlockIsIntact(block, cube, cubes);
    hide IntactBody, IntactItem, CubeBlock;
    IntactBlock(cube, block, cubes);
    var items' := [Block(cube, block)] + items;
    assert forall j :: 1 <= j < |items'| ==> items'[j] == items[j - 1];
    forall j, k | 0 <= j < k < |items'| && items'[j].Block? && items'[k].Block?
      ensures items'[j].cube != items'[k].cube
    {
      assert !BlockAtItem(items, cube, k - 1);
    }
  }

  // ---------- what the splice of a document changes ----------

  lemma {:induction false} PlainConcat(xs: seq<Item>, ys: seq<Item>)
    ensures PlainOf(xs + ys) == PlainOf(xs) + PlainOf(ys)
  {
    if xs == [] {
      assert xs + ys == ys;
    } else {
      assert (xs + ys)[1..] == xs[1..] + ys;
      PlainConcat(xs[1..], ys);
    }
  }

  ghost predicate HeldAt(items: seq<Item>, blocks: map<string, seq<string>>, cube: string, i: int) {
    BlockAtItem(items, cube, i) && cube in blocks && items[i].body == blocks[cube]
  }

  lemma {:induction false} BlocksMembers(items: seq<Item>, cubes: set<string>)
    requires IntactItems(items, cubes)
    ensures forall cube <- BlocksOf(items) :: exists i :: HeldAt(items, BlocksOf(items), cube, i)
    ensures forall cube, i :: BlockAtItem(items, cube, i) ==> HeldAt(items, BlocksOf(items), cube, i)
  {
    if items != [] {
      FirstItem(items, cubes);
      BlocksMembers(items[1..], cubes);
      forall cube, i | BlockAtItem(items, cube, i) ensures HeldAt(items, BlocksOf(items), cube, i) {
        OneBlockEach(items, cubes, cube, i);
      }
      hide IntactItems, IntactItem;
      forall cube <- BlocksOf(items) ensures exists i :: HeldAt(items, BlocksOf(items), cube, i) {
        if BlockAtItem(items, cube, 0) {
          assert HeldAt(items, BlocksOf(items), cube, 0);
        } else {
          var i :| HeldAt(items[1..], BlocksOf(items[1..]), cube, i);
          assert BlockAtItem(items, cube, i + 1);
        }
      }
    }
  }

  /** The step: an item's block is in the map, given the items after the first. */
  lemma OneBlockEach(items: seq<Item>, cubes: set<string>, cube: string, i: int)
    requires IntactItems(items, cubes) && items != [] && BlockAtItem(items, cube, i)
    requires forall c, k :: BlockAtItem(items[1..], c, k) ==> HeldAt(items[1..], BlocksOf(items[1..]), c, k)
    ensures HeldAt(items, BlocksOf(items), cube, i)
  {
    hide IntactItem;
    if i > 0 {
      assert BlockAtItem(items[1..], cube, i - 1);
      assert HeldAt(items[1..], BlocksOf(items[1..]), cube, i - 1);
      assert items[0].Block? ==> items[0].cube != items[i].cube;
    }
  }

  /** The splice updates this cube's block and nothing else: every plain line stays, in order,
      and so does every other cube's block. */
  lemma {:induction false} SpliceDocUpdates(doc: Doc, cubes: set<string>, cube: string, block: seq<string>)
    requires WellFormed(doc, cubes) && cube in cubes
    requires CubeBlock(block, cube)
    ensures PlainLines(SpliceDoc(doc, cube, block)) == PlainLines(doc)
    ensures BlocksOf(SpliceDoc(doc, cube, block).items) == BlocksOf(doc.items)[cube := block]
  {
    assert IntactItems(doc.items, cubes);
    hide WellFormed, CubeBlock;
    if i: nat :| BlockAtItem(doc.items, cube, i) {
      hide IntactItems, BlocksOf, PlainOf, SpliceItems;
      SpliceItemsAt(doc.items, cubes, cube, block, i);
      ReplacedBlocks(doc.items, cubes, cube, block, i);
      ReplacedPlain(doc.items, cube, block, i);
    } else {
      NewBlock(doc.items, cube, block);
    }
  }

  lemma NewBlock(items: seq<Item>, cube: string, block: seq<string>)
    requires forall i: nat :: !BlockAtItem(items, cube, i)
    ensures SpliceItems(items, cube, block) == [Block(cube, block)] + items
    ensures PlainOf(SpliceItems(items, cube, block)) == PlainOf(items)
    ensures BlocksOf(SpliceItems(items, cube, block)) == BlocksOf(items)[cube := block]
  {
    assert forall i :: BlockAtItem(items, cube, i) ==> i >= 0;
    assert ([Block(cube, block)] + items)[1..] == items;
  }

  lemma {:induction false} ReplacedPlain(items: seq<Item>, cube: string, block: seq<string>, i: nat)
    requires BlockAtItem(items, cube, i)
    ensures PlainOf(items[i := Block(cube, block)]) == PlainOf(items)
  {
    var items' := items[i := Block(cube, block)];
    PlainAt(items, i);
    PlainAt(items', i);
    assert items'[..i] == items[..i] && items'[i + 1..] == items[i + 1..];
  }

  lemma {:induction false} PlainAt(items: seq<Item>, i: nat)
    requires i < |items|
    ensures PlainOf(items) == PlainOf(items[..i]) + PlainOf([items[i]]) + PlainOf(items[i + 1..])
  {
    PlainConcat(items[..i], [items[i]] + items[i + 1..]);
    PlainConcat([items[i]], items[i + 1..]);
    assert items[..i] + ([items[i]] + items[i + 1..]) == items;
  }

  lemma {:induction false} ReplacedBlocks(items: seq<Item>, cubes: set<string>, cube: string, block: seq<string>,
      i: nat)
    requires IntactItems(items, cubes) && BlockAtItem(items, cube, i)
    ensures BlocksOf(items[i := Block(cube, block)]) == BlocksOf(items)[cube := block]
  {
    var items' := items[i := Block(cube, block)];
    if i == 0 {
      assert items'[1..] == items[1..];
    } else {
      assert items'[1..] == items[1..][i - 1 := Block(cube, block)];
      assert BlockAtItem(items[1..], cube, i - 1);
      assert items[0].Block? ==> items[0].cube != cube;
      ReplacedBlocks(items[1..], cubes, cube, block, i - 1);
    }
  }

  // ---------- the document of a text ----------

  lemma {:induction false} OnlyOneOpen(doc: Doc, cubes: set<string>)
    requires WellFormed(doc, cubes)
    ensures OnlyOpen(Lines(doc), |doc.head|)
  {
    ItemsOpenNothing(doc.items, cubes);
    assert Only(doc.head + [doc.open], ServerOpen(), |doc.head|);
    OnlyInFirst(doc.head + [doc.open], Flatten(doc.items), ServerOpen(), |doc.head|);
  }

  /** A text is the text of at most one well-formed document. */
  lemma {:induction false} DocIsUnique(d: Doc, d': Doc, cubes: set<string>)
    requires WellFormed(d, cubes) && WellFormed(d', cubes)
    requires Lines(d) == Lines(d')
    ensures d == d'
  {
    OnlyOneOpen(d, cubes);
    OnlyOneOpen(d', cubes);
    var h := |d.head|;
    assert |d'.head| == h;
    assert Lines(d)[..h] == d.head && Lines(d')[..h] == d'.head;
    assert Lines(d)[h] == d.open && Lines(d')[h] == d'.open;
    assert Lines(d)[h + 1..] == Flatten(d.items) && Lines(d')[h + 1..] == Flatten(d'.items);
    ItemsAreUnique(d.items, d'.items, cubes);
  }

  lemma {:induction false} ItemsAreUnique(items: seq<Item>, items': seq<Item>, cubes: set<string>)
    requires IntactItems(items, cubes) && IntactItems(items', cubes)
    requires Flatten(items) == Flatten(items')
    ensures items == items'
  {
    hide IntactItems, IntactItem, Flatten, ItemLines;
    ItemsHaveLines(items, cubes);
    ItemsHaveLines(items', cubes);
    if items != [] && items' != [] {
      FirstItem(items, cubes);
      FirstItem(items', cubes);
      FirstItemIsUnique(items[0], Flatten(items[1..]), items'[0], Flatten(items'[1..]), cubes);
      SamePrefixCancels(ItemLines(items[0]), Flatten(items[1..]), Flatten(items'[1..]));
      ItemsAreUnique(items[1..], items'[1..], cubes);
      assert items == [items[0]] + items[1..] && items' == [items'[0]] + items'[1..];
    }
  }

  lemma FirstItem(items: seq<Item>, cubes: set<string>)
    requires IntactItems(items, cubes) && items != []
    ensures IntactItem(items[0], cubes) && IntactItems(items[1..], cubes)
    ensures Flatten(items) == ItemLines(items[0]) + Flatten(items[1..])
  {
    hide IntactItem, ItemLines;
  }

  lemma {:induction false} ItemsHaveLines(items: seq<Item>, cubes: set<string>)
    requires IntactItems(items, cubes)
    ensures items == [] <==> Flatten(items) == []
  {
    if items != [] {
      assert IntactItem(items[0], cubes);
      assert ItemLines(items[0]) != [];
    }
  }

  lemma {:induction false} SamePrefixCancels(prefix: seq<string>, rest: seq<string>, rest': seq<string>)
    requires prefix + rest == prefix + rest'
    ensures rest == rest'
  {
    assert (prefix + rest)[|prefix|..] == rest && (prefix + rest')[|prefix|..] == rest';
  }

  lemma {:induction false} FirstItemIsUnique(item: Item, rest: seq<string>, item': Item, rest': seq<string>,
      cubes: set<string>)
    requires IntactItem(item, cubes) && IntactItem(item', cubes)
    requires ItemLines(item) + rest == ItemLines(item') + rest'
    ensures item == item'
  {
    var lines, lines' := ItemLines(item), ItemLines(item');
    var all := lines + rest;
    assert lines[0] == all[0] == lines'[0];
    assert item.Block? ==> BeginOf(item.cube)(all[0]);
    assert item'.Block? ==> BeginOf(item'.cube)(all[0]);
    if item.Block? && item'.Block? {
      assert item.cube == item'.cube;
      assert lines[|lines| - 1] == all[|lines| - 1] && lines'[|lines'| - 1] == all[|lines'| - 1];
      assert forall k :: 0 <= k < |lines| ==> lines[k] == all[k];
      assert forall k :: 0 <= k < |lines'| ==> lines'[k] == (lines' + rest')[k];
      assert |lines| == |lines'|;
      assert lines == all[..|lines|] == lines';
    }
  }
}
