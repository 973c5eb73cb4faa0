/** The project-tree printer script: walk a directory tree depth first, skipping
    excluded names, listing each directory's entries with directories before files
    and then by lower-cased name, and draw the walk as indented lines with box-drawing
    or ASCII branch glyphs. The file system is a tree value. */
module PrintTree {
  import opened Wrappers
  import opened Text

  /** The names excluded when no `--exclude` argument is given. */
  const DefaultExcludes: set<string> := {
    ".venv", "__pycache__", ".pytest_cache", ".mypy_cache", ".ruff_cache",
    ".git", ".tox", "dist", "build", ".vscode", ".idea"
  }

  /** A path as its sequence of components (`Path.parts`). */
  type Parts = seq<string>

  /** Some component of the path is an excluded name. */
  predicate Excluded(path: Parts, exclude: set<string>) {
    exists i :: 0 <= i < |path| && path[i] in exclude
  }

  /** `should_skip`: scan the components and stop at the first excluded one. */
  method ShouldSkip(path: Parts, exclude: set<string>) returns (skip: bool)
    ensures skip <==> Excluded(path, exclude)
  {
    for i := 0 to |path|
      invariant forall j :: 0 <= j < i ==> path[j] !in exclude
    {
      if path[i] in exclude {
        return true;
      }
    }
    return false;
  }

  /** A directory entry: a regular file, a directory (whose listing may be refused), or
      something that is neither (a socket, a device, a dangling link). */
  datatype Node =
    | File(name: string)
    | Dir(name: string, children: seq<Node>, readable: bool)
    | Other(name: string)

  /** The sort key `(p.is_file(), p.name.lower())`, compared as a Python tuple. */
  predicate KeyLe(a: Node, b: Node) {
    if a.File? != b.File? then b.File? else StrLe(Lower(a.name), Lower(b.name))
  }

  predicate SortedByKey(s: seq<Node>) {
    forall i, j :: 0 <= i < j < |s| ==> KeyLe(s[i], s[j])
  }

  lemma KeyLeTotal(a: Node, b: Node)
    ensures KeyLe(a, b) || KeyLe(b, a)
  {
    StrLeTotal(Lower(a.name), Lower(b.name));
  }

  lemma KeyLeTrans(a: Node, b: Node, c: Node)
    requires KeyLe(a, b) && KeyLe(b, c)
    ensures KeyLe(a, c)
  {
    if a.File? == b.File? && b.File? == c.File? {
      StrLeTrans(Lower(a.name), Lower(b.name), Lower(c.name));
    }
  }

  /** Insert `x` into a key-sorted sequence after every element whose key is not above
      its own, as a stable sort places a later element. */
  function Insert(sorted: seq<Node>, x: Node): (r: seq<Node>)
    ensures multiset(r) == multiset(sorted) + multiset{x}
  {
    if sorted == [] then [x]
    else if !KeyLe(sorted[0], x) then [x] + sorted
    else
      assert sorted == [sorted[0]] + sorted[1..];
      [sorted[0]] + Insert(sorted[1..], x)
  }

  lemma {:induction false} InsertSorted(sorted: seq<Node>, x: Node)
    requires SortedByKey(sorted)
    ensures SortedByKey(Insert(sorted, x))
  {
    var r := Insert(sorted, x);
    if sorted == [] {
    } else if !KeyLe(sorted[0], x) {
      KeyLeTotal(sorted[0], x);
      forall i, j | 0 <= i < j < |r| ensures KeyLe(r[i], r[j]) {
        if i == 0 && j > 1 {
          KeyLeTrans(x, sorted[0], sorted[j - 1]);
        }
      }
    } else {
      var tail := Insert(sorted[1..], x);
      InsertSorted(sorted[1..], x);
      forall j | 0 <= j < |tail| ensures KeyLe(sorted[0], tail[j]) {
        assert tail[j] in multiset(tail);
        if tail[j] != x {
          assert tail[j] in multiset(sorted[1..]);
          var m :| 0 <= m < |sorted[1..]| && sorted[1..][m] == tail[j];
          assert sorted[1 + m] == tail[j];
        }
      }
      assert r == [sorted[0]] + tail;
    }
  }

  /** `sorted(entries, key=...)`: a key-ordered permutation of the entries. */
  function SortEntries(entries: seq<Node>): (r: seq<Node>)
    ensures multiset(r) == multiset(entries)
    ensures SortedByKey(r)
  {
    if entries == [] then []
    else
      var n := |entries| - 1;
      var before := SortEntries(entries[..n]);
      InsertSorted(before, entries[n]);
      assert entries == entries[..n] + [entries[n]];
      Insert(before, entries[n])
  }

  /** The children of the directory at `dirPath` that `should_skip` keeps, in listing order. */
  function Visible(dirPath: Parts, children: seq<Node>, exclude: set<string>): (r: seq<Node>)
    ensures forall e :: e in r <==> e in children && !Excluded(dirPath + [e.name], exclude)
  {
    if children == [] then []
    else (if Excluded(dirPath + [children[0].name], exclude) then [] else [children[0]])
         + Visible(dirPath, children[1..], exclude)
  }

  /** The entries `walk` lists for a directory: the kept children, sorted by key. */
  function Entries(dirPath: Parts, dir: Node, exclude: set<string>): (r: seq<Node>)
    requires dir.Dir?
    ensures forall e :: e in r ==> e in dir.children && !Excluded(dirPath + [e.name], exclude)
  {
    var visible := Visible(dirPath, dir.children, exclude);
    var r := SortEntries(visible);
    assert forall e :: e in r ==> e in multiset(visible);
    r
  }

  /** One yielded `(depth, path, is_last)` tuple, with the two facts about the path that
      the drawing reads: its name and whether it is a directory. */
  datatype Item = Item(depth: nat, path: Parts, name: string, isDir: bool, isLast: bool)

  /** `walk` can be entered with `dir` at `depth`: `dir` is a directory, or the depth limit
      returns before anything is listed (so even a file root is drawn under a limit below 1). */
  predicate Walkable(dir: Node, depth: nat, maxDepth: Option<int>) {
    dir.Dir? || (maxDepth.Some? && depth > maxDepth.value)
  }

  /** `iter_tree`: the root at depth 0, then the walk of its contents from depth 1. */
  function IterTree(rootPath: Parts, root: Node, exclude: set<string>, maxDepth: Option<int>): seq<Item>
    requires Walkable(root, 1, maxDepth)
  {
    [Item(0, rootPath, root.name, root.Dir?, true)] + Walk(rootPath, root, 1, exclude, maxDepth)
  }

  /** `walk`: nothing below the depth limit or for a directory that refuses its listing;
      otherwise each entry followed, for a directory, by its own walk one level deeper. */
  function Walk(dirPath: Parts, dir: Node, depth: nat, exclude: set<string>, maxDepth: Option<int>): seq<Item>
    requires Walkable(dir, depth, maxDepth)
    decreases dir, 1
  {
    if maxDepth.Some? && depth > maxDepth.value then []
    else if !dir.readable then []
    else Emit(dirPath, dir, Entries(dirPath, dir, exclude), 0, depth, exclude, maxDepth)
  }

  /** The items of `entries[k..]`, each entry followed by its subtree. */
  function Emit(dirPath: Parts, parent: Node, entries: seq<Node>, k: nat, depth: nat,
                exclude: set<string>, maxDepth: Option<int>): seq<Item>
    requires parent.Dir? && k <= |entries|
    requires forall e :: e in entries ==> e in parent.children
    decreases parent, 0, |entries| - k
  {
    if k == |entries| then []
    else
      var e := entries[k];
      assert e in parent.children;
      var path := dirPath + [e.name];
      [Item(depth, path, e.name, e.Dir?, k == |entries| - 1)]
      + (if e.Dir? then Walk(path, e, depth + 1, exclude, maxDepth) else [])
      + Emit(dirPath, parent, entries, k + 1, depth, exclude, maxDepth)
  }

  // Shape of the walk.

  /** Every item lies at depth `lo` or deeper, and within the depth limit when there is one. */
  predicate DepthsWithin(items: seq<Item>, lo: nat, maxDepth: Option<int>) {
    forall k :: 0 <= k < |items| ==>
      lo <= items[k].depth && (maxDepth.Some? ==> items[k].depth <= maxDepth.value)
  }

  /** Depth-first order: from one item to the next the depth rises by at most one. */
  predicate DepthFirst(items: seq<Item>) {
    forall k :: 0 <= k < |items| - 1 ==> items[k + 1].depth <= items[k].depth + 1
  }

  /** No item's path has an excluded component. */
  predicate NoneExcluded(items: seq<Item>, exclude: set<string>) {
    forall k :: 0 <= k < |items| ==> !Excluded(items[k].path, exclude)
  }

  lemma DepthFirstAppend(a: seq<Item>, b: seq<Item>)
    requires DepthFirst(a) && DepthFirst(b)
    requires a != [] && b != [] ==> b[0].depth <= a[|a| - 1].depth + 1
    ensures DepthFirst(a + b)
  {
    var ab := a + b;
    forall k | 0 <= k < |ab| - 1 ensures ab[k + 1].depth <= ab[k].depth + 1 {
      if k + 1 < |a| {
        assert ab[k] == a[k] && ab[k + 1] == a[k + 1];
      } else if k + 1 == |a| {
        assert ab[k] == a[k] && ab[k + 1] == b[0];
      } else {
        assert ab[k] == b[k - |a|] && ab[k + 1] == b[k + 1 - |a|];
      }
    }
  }

  /** A directory's walk starts at its own depth, stays within the depth limit, moves depth
      first, and never lists an excluded path. */
  lemma {:induction false} WalkShape(dirPath: Parts, dir: Node, depth: nat, exclude: set<string>, maxDepth: Option<int>)
    requires Walkable(dir, depth, maxDepth)
    ensures var items := Walk(dirPath, dir, depth, exclude, maxDepth);
      DepthsWithin(items, depth, maxDepth) && DepthFirst(items) && NoneExcluded(items, exclude)
      && (items != [] ==> items[0].depth == depth)
    decreases dir, 1
  {
    if !(maxDepth.Some? && depth > maxDepth.value) && dir.readable {
      EmitShape(dirPath, dir, Entries(dirPath, dir, exclude), 0, depth, exclude, maxDepth);
    }
  }

  lemma {:induction false} EmitShape(dirPath: Parts, parent: Node, entries: seq<Node>, k: nat, depth: nat,
                                     exclude: set<string>, maxDepth: Option<int>)
    requires parent.Dir? && k <= |entries|
    requires forall e :: e in entries ==> e in parent.children && !Excluded(dirPath + [e.name], exclude)
    requires maxDepth.Some? ==> depth <= maxDepth.value
    ensures var items := Emit(dirPath, parent, entries, k, depth, exclude, maxDepth);
      DepthsWithin(items, depth, maxDepth) && DepthFirst(items) && NoneExcluded(items, exclude)
      && (items != [] ==> items[0].depth == depth)
    decreases parent, 0, |entries| - k
  {
    if k < |entries| {
      var e := entries[k];
      assert e in parent.children;
      var path := dirPath + [e.name];
      var head := [Item(depth, path, e.name, e.Dir?, k == |entries| - 1)];
      var sub := if e.Dir? then Walk(path, e, depth + 1, exclude, maxDepth) else [];
      var rest := Emit(dirPath, parent, entries, k + 1, depth, exclude, maxDepth);
      if e.Dir? {
        WalkShape(path, e, depth + 1, exclude, maxDepth);
      }
      EmitShape(dirPath, parent, entries, k + 1, depth, exclude, maxDepth);
      PieceShape(head[0], sub, rest, depth, exclude, maxDepth);
    }
  }

  /** An entry, its subtree one level deeper and the items of the following entries
      together keep the shape of a walk. */
  lemma PieceShape(head: Item, sub: seq<Item>, rest: seq<Item>, depth: nat, exclude: set<string>, maxDepth: Option<int>)
    requires head.depth == depth && (maxDepth.Some? ==> depth <= maxDepth.value) && !Excluded(head.path, exclude)
    requires DepthsWithin(sub, depth + 1, maxDepth) && DepthFirst(sub) && NoneExcluded(sub, exclude)
    requires sub != [] ==> sub[0].depth == depth + 1
    requires DepthsWithin(rest, depth, maxDepth) && DepthFirst(rest) && NoneExcluded(rest, exclude)
    requires rest != [] ==> rest[0].depth == depth
    ensures var items := [head] + sub + rest;
      DepthsWithin(items, depth, maxDepth) && DepthFirst(items) && NoneExcluded(items, exclude)
      && items[0].depth == depth
  {
    DepthFirstAppend([head], sub);
    DepthFirstAppend([head] + sub, rest);
    var items := [head] + sub + rest;
    forall j | 0 <= j < |items|
      ensures depth <= items[j].depth && (maxDepth.Some? ==> items[j].depth <= maxDepth.value)
      ensures !Excluded(items[j].path, exclude)
    {
      if j == 0 {
      } else if j < 1 + |sub| {
        assert items[j] == sub[j - 1];
      } else {
        assert items[j] == rest[j - 1 - |sub|];
      }
    }
  }

  /** `iter_tree` yields `(0, root, True)` first; every later item lies between depth 1 and the
      depth limit, is not excluded, and the items move depth first. */
  lemma IterTreeShape(rootPath: Parts, root: Node, exclude: set<string>, maxDepth: Option<int>)
    requires Walkable(root, 1, maxDepth)
    ensures var items := IterTree(rootPath, root, exclude, maxDepth);
      items[0] == Item(0, rootPath, root.name, root.Dir?, true)
      && DepthsWithin(items[1..], 1, maxDepth)
      && NoneExcluded(items[1..], exclude)
      && DepthFirst(items)
  {
    var walk := Walk(rootPath, root, 1, exclude, maxDepth);
    WalkShape(rootPath, root, 1, exclude, maxDepth);
    var items := IterTree(rootPath, root, exclude, maxDepth);
    assert items[1..] == walk;
    DepthFirstAppend([items[0]], walk);
  }

  // Siblings.

  /** The items at exactly depth `d`, in order. */
  function AtDepth(items: seq<Item>, d: nat): seq<Item> {
    if items == [] then []
    else (if items[0].depth == d then [items[0]] else []) + AtDepth(items[1..], d)
  }

  lemma {:induction false} AtDepthAppend(a: seq<Item>, b: seq<Item>, d: nat)
    ensures AtDepth(a + b, d) == AtDepth(a, d) + AtDepth(b, d)
  {
    if a == [] {
      assert a + b == b;
    } else {
      var first := if a[0].depth == d then [a[0]] else [];
      assert (a + b)[0] == a[0];
      assert (a + b)[1..] == a[1..] + b;
      assert AtDepth(a + b, d) == first + AtDepth(a[1..] + b, d);
      AtDepthAppend(a[1..], b, d);
      assert AtDepth(a, d) == first + AtDepth(a[1..], d);
    }
  }

  lemma {:induction false} AtDepthDeeper(items: seq<Item>, d: nat, maxDepth: Option<int>)
    requires DepthsWithin(items, d + 1, maxDepth)
    ensures AtDepth(items, d) == []
  {
    if items != [] {
      AtDepthDeeper(items[1..], d, maxDepth);
    }
  }

  /** The items of `entries[k..]` themselves, without their subtrees. */
  function Heads(dirPath: Parts, entries: seq<Node>, k: nat, depth: nat): (r: seq<Item>)
    requires k <= |entries|
    ensures |r| == |entries| - k
    ensures forall i :: 0 <= i < |r| ==>
      r[i] == Item(depth, dirPath + [entries[k + i].name], entries[k + i].name, entries[k + i].Dir?, k + i == |entries| - 1)
    decreases |entries| - k
  {
    if k == |entries| then []
    else [Item(depth, dirPath + [entries[k].name], entries[k].name, entries[k].Dir?, k == |entries| - 1)]
         + Heads(dirPath, entries, k + 1, depth)
  }

  lemma {:induction false} EmitSiblings(dirPath: Parts, parent: Node, entries: seq<Node>, k: nat, depth: nat,
                                        exclude: set<string>, maxDepth: Option<int>)
    requires parent.Dir? && k <= |entries|
    requires forall e :: e in entries ==> e in parent.children
    ensures AtDepth(Emit(dirPath, parent, entries, k, depth, exclude, maxDepth), depth) == Heads(dirPath, entries, k, depth)
    decreases |entries| - k
  {
    if k < |entries| {
      var e := entries[k];
      var path := dirPath + [e.name];
      var head := [Item(depth, path, e.name, e.Dir?, k == |entries| - 1)];
      var sub := if e.Dir? then Walk(path, e, depth + 1, exclude, maxDepth) else [];
      var rest := Emit(dirPath, parent, entries, k + 1, depth, exclude, maxDepth);
      if e.Dir? {
        WalkShape(path, e, depth + 1, exclude, maxDepth);
      }
      assert Emit(dirPath, parent, entries, k, depth, exclude, maxDepth) == head + sub + rest;
      AtDepthDeeper(sub, depth, maxDepth);
      EmitSiblings(dirPath, parent, entries, k + 1, depth, exclude, maxDepth);
      AtDepthAppend(head, sub, depth);
      AtDepthAppend(head + sub, rest, depth);
      assert AtDepth(head, depth) == head;
      assert Heads(dirPath, entries, k, depth) == head + Heads(dirPath, entries, k + 1, depth);
    }
  }

  /** The items a directory's walk yields at its own depth are exactly its kept entries, in
      key order (directories first, then by lower-cased name), each under the directory's
      path, and only the final one is marked last; below the depth limit or for a directory
      whose listing is refused there are none. */
  lemma WalkSiblings(dirPath: Parts, dir: Node, depth: nat, exclude: set<string>, maxDepth: Option<int>)
    requires dir.Dir?
    ensures var sibs := AtDepth(Walk(dirPath, dir, depth, exclude, maxDepth), depth);
      var entries := Entries(dirPath, dir, exclude);
      if (maxDepth.Some? && depth > maxDepth.value) || !dir.readable then sibs == []
      else
        && |sibs| == |entries|
        && SortedByKey(entries)
        && multiset(entries) == multiset(Visible(dirPath, dir.children, exclude))
        && (forall i :: 0 <= i < |sibs| ==>
              sibs[i].path == dirPath + [entries[i].name] && sibs[i].name == entries[i].name
              && sibs[i].isDir == entries[i].Dir? && (sibs[i].isLast <==> i == |sibs| - 1))
  {
    if !(maxDepth.Some? && depth > maxDepth.value) && dir.readable {
      EmitSiblings(dirPath, dir, Entries(dirPath, dir, exclude), 0, depth, exclude, maxDepth);
    }
  }

  // Drawing.

  /** The five glyphs of a drawing: vertical bar, tee, corner, horizontal bar, blank. */
  datatype Glyphs = Glyphs(vertical: char, tee: char, corner: char, horizontal: char, blank: char)

  const BoxGlyphs := Glyphs('\U{2502}', '\U{251C}', '\U{2514}', '\U{2500}', ' ')
  const AsciiGlyphs := Glyphs('|', '|', '`', '-', ' ')

  function GlyphsFor(asciiOnly: bool): Glyphs {
    if asciiOnly then AsciiGlyphs else BoxGlyphs
  }

  /** Whether the most recent item at depth `d` was the last of its siblings
      (false when there is none). */
  function LastAt(items: seq<Item>, d: nat): bool {
    if items == [] then false
    else if items[|items| - 1].depth == d then items[|items| - 1].isLast
    else LastAt(items[..|items| - 1], d)
  }

  /** The four characters drawn for an ancestor level: blank under an ancestor that was
      the last of its siblings, a vertical bar under one that was not. */
  function Chunk(ancestorLast: bool, g: Glyphs): string {
    (if ancestorLast then [g.blank] else [g.vertical]) + "   "
  }

  /** The line drawn for `items[k]`: the root's name for depth 0; otherwise one chunk per
      ancestor level, the branch (a corner for a last sibling, a tee otherwise), two
      horizontal bars, a space and the name, with `/` after a directory. */
  function LineFor(items: seq<Item>, k: nat, g: Glyphs): string
    requires k < |items|
  {
    var it := items[k];
    if it.depth == 0 then it.name
    else
      (Join(AncestorChunks(items, k, g), "") + [if it.isLast then g.corner else g.tee, g.horizontal, g.horizontal, ' '])
      + (it.name + (if it.isDir then "/" else ""))
  }

  /** The chunks of the line for `items[k]`: level `j` reflects the latest item at depth `j + 1`. */
  function AncestorChunks(items: seq<Item>, k: nat, g: Glyphs): seq<string>
    requires k < |items| && items[k].depth >= 1
  {
    seq(items[k].depth - 1, j requires 0 <= j < items[k].depth - 1 => Chunk(LastAt(items[..k], j + 1), g))
  }

  /** One line per item. */
  function TreeLines(items: seq<Item>, g: Glyphs): seq<string> {
    seq(|items|, k requires 0 <= k < |items| => LineFor(items, k, g))
  }

  lemma LastAtStep(items: seq<Item>, k: nat, d: nat)
    requires k < |items|
    ensures LastAt(items[..k + 1], d) == if items[k].depth == d then items[k].isLast else LastAt(items[..k], d)
  {
    assert items[..k + 1][..k] == items[..k];
  }

  /** `draw_tree`: draw the lines of `iter_tree`'s items and join them with newlines. */
  method DrawTree(rootPath: Parts, root: Node, exclude: set<string>, maxDepth: Option<int>, asciiOnly: bool)
    returns (text: string)
    requires Walkable(root, 1, maxDepth)
    ensures text == Join(TreeLines(IterTree(rootPath, root, exclude, maxDepth), GlyphsFor(asciiOnly)), "\n")
  {
    var items := IterTree(rootPath, root, exclude, maxDepth);
    IterTreeShape(rootPath, root, exclude, maxDepth);
    assert forall k :: 1 <= k < |items| ==> items[k].depth == items[1..][k - 1].depth;
    assert RootFirst(items);
    text := DrawItems(items, GlyphsFor(asciiOnly));
  }

  /** A depth-first sequence of items that starts with the root, as `iter_tree` yields it. */
  predicate RootFirst(items: seq<Item>) {
    && items != [] && items[0].depth == 0
    && (forall k :: 1 <= k < |items| ==> items[k].depth >= 1)
    && DepthFirst(items)
  }

  /** `parentsLast` after the first `k` items: as long as the depth of the latest item, and
      entry `j` tells whether the latest item at depth `j + 1` was a last sibling. */
  predicate StackAfter(items: seq<Item>, k: nat, parentsLast: seq<bool>)
    requires k <= |items|
  {
    && (k == 0 ==> parentsLast == [])
    && (k > 0 ==> |parentsLast| == items[k - 1].depth)
    && (forall j :: 0 <= j < |parentsLast| ==> parentsLast[j] == LastAt(items[..k], j + 1))
  }

  /** The stack holds an entry for every ancestor level of the next item. */
  lemma StackCoversAncestors(items: seq<Item>, k: nat, parentsLast: seq<bool>)
    requires RootFirst(items) && k < |items| && items[k].depth >= 1
    requires StackAfter(items, k, parentsLast)
    ensures items[k].depth - 1 <= |parentsLast|
  {
    assert k > 0;
    assert items[k].depth <= items[k - 1].depth + 1;
  }

  /** Appending, or overwriting and truncating, keeps the stack's meaning after one more item. */
  lemma StackStep(items: seq<Item>, k: nat, parentsLast: seq<bool>, next: seq<bool>)
    requires RootFirst(items) && k < |items| && items[k].depth >= 1
    requires StackAfter(items, k, parentsLast)
    requires next == if |parentsLast| < items[k].depth then parentsLast + [items[k].isLast]
                     else parentsLast[items[k].depth - 1 := items[k].isLast][..items[k].depth]
    ensures StackAfter(items, k + 1, next)
  {
    StackCoversAncestors(items, k, parentsLast);
    forall j | 0 <= j < |next| ensures next[j] == LastAt(items[..k + 1], j + 1) {
      LastAtStep(items, k, j + 1);
    }
  }

  /** Chunks read from the stack are the specified chunks. */
  lemma ChunksFromStack(items: seq<Item>, k: nat, g: Glyphs, chunks: seq<string>)
    requires k < |items| && items[k].depth >= 1
    requires |chunks| == items[k].depth - 1
    requires forall i :: 0 <= i < |chunks| ==> chunks[i] == Chunk(LastAt(items[..k], i + 1), g)
    ensures AncestorChunks(items, k, g) == chunks
  {
    var spec := AncestorChunks(items, k, g);
    forall i | 0 <= i < |chunks| ensures spec[i] == chunks[i] {
    }
  }

  /** The chunks of one line's prefix, one per recorded ancestor level. */
  method PrefixChunks(ancestorsLast: seq<bool>, g: Glyphs) returns (chunks: seq<string>)
    ensures |chunks| == |ancestorsLast|
    ensures forall i :: 0 <= i < |chunks| ==> chunks[i] == Chunk(ancestorsLast[i], g)
  {
    chunks := [];
    for j := 0 to |ancestorsLast|
      invariant |chunks| == j
      invariant forall i :: 0 <= i < j ==> chunks[i] == Chunk(ancestorsLast[i], g)
    {
      chunks := chunks + [(if ancestorsLast[j] then [g.blank] else [g.vertical]) + "   "];
    }
  }

  /** The drawing loop of `draw_tree` over a depth-first sequence of items that starts with
      the root: `parentsLast[j]` records whether the latest item at depth `j + 1` was a last
      sibling, and each line's chunks are read from it. */
  method DrawItems(items: seq<Item>, g: Glyphs) returns (text: string)
    requires RootFirst(items)
    ensures text == Join(TreeLines(items, g), "\n")
  {
    var lines: seq<string> := [];
    var parentsLast: seq<bool> := [];
    for k := 0 to |items|
      invariant |lines| == k
      invariant forall i :: 0 <= i < k ==> lines[i] == LineFor(items, i, g)
      invariant StackAfter(items, k, parentsLast)
    {
      var it := items[k];
      if it.depth == 0 {
        lines := lines + [it.name];
        assert k == 0;
      } else {
        StackCoversAncestors(items, k, parentsLast);
        var upto := if it.depth - 1 <= |parentsLast| then it.depth - 1 else |parentsLast|;
        var chunks := PrefixChunks(parentsLast[..upto], g);
        var branch := if it.isLast then g.corner else g.tee;
        var prefix := Join(chunks, "") + [branch, g.horizontal, g.horizontal, ' '];
        var name := it.name + (if it.isDir then "/" else "");
        ChunksFromStack(items, k, g, chunks);
        assert prefix + name == LineFor(items, k, g);
        lines := lines + [prefix + name];
        ghost var before := parentsLast;
        if |parentsLast| < it.depth {
          parentsLast := parentsLast + [it.isLast];
        } else {
          parentsLast := parentsLast[it.depth - 1 := it.isLast][..it.depth];
        }
        StackStep(items, k, before, parentsLast);
      }
    }
    assert lines == TreeLines(items, g);
    text := Join(lines, "\n");
  }

  /** The `--exclude` argument as a set: the comma-separated items, stripped, empty ones dropped. */
  function ParseExcludes(arg: string): set<string> {
    var items := Split(arg, ',');
    set i | 0 <= i < |items| && Strip(items[i]) != "" :: Strip(items[i])
  }

  /** Every parsed name is non-empty, holds no comma and has no whitespace at either end. */
  lemma ParsedNamesClean(arg: string)
    ensures forall s :: s in ParseExcludes(arg) ==>
      s != "" && ',' !in s && Strip(s) == s
  {
    var items := Split(arg, ',');
    forall s | s in ParseExcludes(arg) ensures s != "" && ',' !in s && Strip(s) == s {
      var i :| 0 <= i < |items| && Strip(items[i]) != "" && Strip(items[i]) == s;
      StripIdempotent(items[i]);
      assert forall c :: c in s ==> c in items[i];
    }
  }

  /** A name that survives parsing unchanged: non-empty, comma-free, no whitespace at either end. */
  predicate CleanName(s: string) {
    s != "" && ',' !in s && !IsSpace(s[0]) && !IsSpace(s[|s| - 1])
  }

  /** Clean names survive a round trip through a comma-joined argument. */
  lemma {:induction false} ParseJoined(names: seq<string>)
    requires forall i :: 0 <= i < |names| ==> CleanName(names[i])
    ensures ParseExcludes(Join(names, ",")) == set i | 0 <= i < |names| :: names[i]
  {
    forall i | 0 <= i < |names| ensures Strip(names[i]) == names[i] {
      StripFixed(names[i]);
    }
    if names == [] {
      assert Split("", ',') == [""];
    } else {
      SplitJoin(names, ',');
    }
  }

  /** The default exclude names in sorted order, as `",".join(sorted(DEFAULT_EXCLUDES))` lists them. */
  const DefaultExcludeList: seq<string> := [
    ".git", ".idea", ".mypy_cache", ".pytest_cache", ".ruff_cache", ".tox", ".venv", ".vscode",
    "__pycache__", "build", "dist"
  ]

  /** The default list is in ascending code-point order with no repeated name, which is the
      order `sorted` gives the set. */
  lemma DefaultListSorted()
    ensures forall i :: 0 <= i < |DefaultExcludeList| - 1 ==>
      StrLe(DefaultExcludeList[i], DefaultExcludeList[i + 1]) && DefaultExcludeList[i] != DefaultExcludeList[i + 1]
  {
    var l := DefaultExcludeList;
    assert StrLe(".venv", ".vscode") by {
      assert ".venv"[1..] == "venv" && ".vscode"[1..] == "vscode";
      assert StrLe("venv", "vscode") by { assert "venv"[1..] == "env" && "vscode"[1..] == "scode"; }
    }
    forall i | 0 <= i < |l| - 1 ensures StrLe(l[i], l[i + 1]) && l[i] != l[i + 1] {
      assert i in {0, 1, 2, 3, 4, 5, 6, 7, 8, 9};
    }
  }

  // The cleanliness of the eleven literals is proved in three groups so that each proof
  // evaluates only a few literals.

  lemma DotNamesClean()
    ensures CleanName(".git") && CleanName(".idea") && CleanName(".mypy_cache") && CleanName(".pytest_cache")
  {
  }

  lemma MoreDotNamesClean()
    ensures CleanName(".ruff_cache") && CleanName(".tox") && CleanName(".venv") && CleanName(".vscode")
  {
  }

  lemma PlainNamesClean()
    ensures CleanName("__pycache__") && CleanName("build") && CleanName("dist")
  {
  }

  lemma DefaultListClean()
    ensures forall i :: 0 <= i < |DefaultExcludeList| ==> CleanName(DefaultExcludeList[i])
  {
    DotNamesClean();
    MoreDotNamesClean();
    PlainNamesClean();
    var l := DefaultExcludeList;
    forall i | 0 <= i < |l| ensures CleanName(l[i]) {
      assert i in {0, 1, 2, 3, 4, 5, 6, 7, 8, 9, 10};
    }
  }

  lemma DefaultListNames()
    ensures (set i | 0 <= i < |DefaultExcludeList| :: DefaultExcludeList[i]) == DefaultExcludes
  {
    var l := DefaultExcludeList;
    assert DefaultExcludes == {l[0], l[1], l[2], l[3], l[4], l[5], l[6], l[7], l[8], l[9], l[10]};
    assert forall i :: 0 <= i < |l| ==> l[i] in DefaultExcludes;
  }

  /** The default `--exclude` argument parses back to exactly the default names. */
  lemma DefaultArgument()
    ensures ParseExcludes(Join(DefaultExcludeList, ",")) == DefaultExcludes
  {
    DefaultListClean();
    ParseJoined(DefaultExcludeList);
    DefaultListNames();
  }
}
