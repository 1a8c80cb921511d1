/** Printing dotted settings as a nested mapping, and reading such a mapping back
    with an indentation-stack reader (block mappings, section 8.2.2 of YAML 1.2.2).

    A line is kept as its indentation, its key and its value; how scalars and keys
    are quoted is not modelled.  Comments and blank lines carry nothing to read. */
module Yaml {
  import opened Wrappers

  datatype Line = Header(indent: nat, name: string) | Entry(indent: nat, name: string, value: string) | Remark

  /** A setting: the path of its dotted key, and its formatted value. */
  datatype Item = Item(path: seq<string>, value: string)

  // ---------------------------------------------------------------- reading

  datatype YamlError = BadIndentation | DuplicateKey

  /** An open entry of a block mapping. */
  datatype Frame = Frame(indent: nat, name: string, leaf: bool)

  /** What has been read so far: the entries around the current line, the sections
      opened and the values found, both by path. */
  datatype Doc = Doc(stack: seq<Frame>, sections: set<seq<string>>, values: map<seq<string>, string>)

  const EMPTY_DOC: Doc := Doc([], {}, map[])

  function Names(stack: seq<Frame>): seq<string> {
    seq(|stack|, i requires 0 <= i < |stack| => stack[i].name)
  }

  /** Closes the entries that are indented deeper than n. */
  function Close(stack: seq<Frame>, n: nat): seq<Frame> {
    if stack != [] && stack[|stack| - 1].indent > n then Close(stack[..|stack| - 1], n) else stack
  }

  /** The entries around a line at indentation n: it is a sibling of an entry at the
      same indentation, or the first child of a section that was just opened. */
  function Around(stack: seq<Frame>, n: nat): Option<seq<Frame>> {
    var rest := Close(stack, n);
    if rest != [] && rest[|rest| - 1].indent == n then Some(rest[..|rest| - 1])
    else if |rest| == |stack| && (rest == [] || !rest[|rest| - 1].leaf) then Some(rest)
    else None
  }

  function ReadLine(d: Doc, l: Line): Result<Doc, YamlError> {
    if l.Remark? then Ok(d)
    else
      match Around(d.stack, l.indent)
      case None => Err(BadIndentation)
      case Some(parent) =>
        var path := Names(parent) + [l.name];
        if path in d.sections || path in d.values then Err(DuplicateKey)
        else if l.Header? then Ok(Doc(parent + [Frame(l.indent, l.name, false)], d.sections + {path}, d.values))
        else Ok(Doc(parent + [Frame(l.indent, l.name, true)], d.sections, d.values[path := l.value]))
  }

  function ReadFrom(d: Doc, lines: seq<Line>): Result<Doc, YamlError> {
    if lines == [] then Ok(d)
    else
      match ReadFrom(d, lines[..|lines| - 1])
      case Err(e) => Err(e)
      case Ok(p) => ReadLine(p, lines[|lines| - 1])
  }

  // ---------------------------------------------------------------- printing

  function Sections(path: seq<string>): seq<string> {
    if path == [] then [] else path[..|path| - 1]
  }

  /** Length of the common prefix. */
  function Common(a: seq<string>, b: seq<string>): (n: nat)
    ensures n <= |a| && n <= |b| && a[..n] == b[..n]
    ensures n < |a| && n < |b| ==> a[n] != b[n]
  {
    if a != [] && b != [] && a[0] == b[0] then
      var n := 1 + Common(a[1..], b[1..]);
      assert a[..n] == [a[0]] + a[1..][..n - 1] && b[..n] == [b[0]] + b[1..][..n - 1];
      n
    else 0
  }

  /** Headers of the section levels from..to-1, two spaces a level. */
  function Headers(sections: seq<string>, from: nat, to: nat): seq<Line>
    requires from <= to <= |sections|
  {
    if from == to then [] else Headers(sections, from, to - 1) + [Header(2 * (to - 1), sections[to - 1])]
  }

  /** The lines of a setting below the sections that are open already. */
  function ItemLines(open: seq<string>, item: Item): seq<Line>
    requires item.path != []
  {
    var sections := Sections(item.path);
    Headers(sections, Common(open, sections), |sections|)
    + [Entry(2 * |sections|, item.path[|item.path| - 1], item.value)]
  }

  ghost predicate Pathed(items: seq<Item>) {
    forall i | 0 <= i < |items| :: items[i].path != []
  }

  function OpenAfter(items: seq<Item>): seq<string> {
    if items == [] then [] else Sections(items[|items| - 1].path)
  }

  function Print(items: seq<Item>): seq<Line>
    requires Pathed(items)
  {
    if items == [] then []
    else Print(items[..|items| - 1]) + ItemLines(OpenAfter(items[..|items| - 1]), items[|items| - 1])
  }

  /** At two settings of one section: two spaces a level, each header once. */
  lemma TwoPrinted(a: string, b: string, c: string, d: string, v: string, w: string)
    ensures Print([Item([a, b, c], v), Item([a, b, d], w)])
      == [Header(0, a), Header(2, b), Entry(4, c, v), Entry(4, d, w)]
  {
    var x, y := Item([a, b, c], v), Item([a, b, d], w);
    assert [x, y][..1] == [x] && [x][..0] == [];
    assert Sections(x.path) == [a, b] == Sections(y.path);
    assert [a, b][1..] == [b] && [b][1..] == [];
    assert Common([a, b], [a, b]) == 2 && Common([], [a, b]) == 0;
    assert Headers([a, b], 0, 1) == [Header(0, a)];
    assert Headers([a, b], 0, 2) == [Header(0, a), Header(2, b)];
    assert ItemLines([], x) == [Header(0, a), Header(2, b)] + [Entry(4, c, v)];
    assert OpenAfter([x]) == [a, b] && OpenAfter([]) == [];
    assert Headers([a, b], 2, 2) == [] && ItemLines([a, b], y) == [Entry(4, d, w)];
    assert Print([]) == [] && Print([x]) == [Header(0, a), Header(2, b), Entry(4, c, v)];
  }

  // ---------------------------------------------------------------- what printing means

  /** p is a proper prefix of path, and not empty: a section the path lies in. */
  predicate Under(p: seq<string>, path: seq<string>) {
    0 < |p| < |path| && path[..|p|] == p
  }

  /** The sections a path lies in. */
  function Prefixes(path: seq<string>): set<seq<string>> {
    set n | 0 < n < |path| :: path[..n]
  }

  function SectionsOf(items: seq<Item>): set<seq<string>> {
    if items == [] then {} else SectionsOf(items[..|items| - 1]) + Prefixes(items[|items| - 1].path)
  }

  function ValuesOf(items: seq<Item>): map<seq<string>, string> {
    if items == [] then map[]
    else ValuesOf(items[..|items| - 1])[items[|items| - 1].path := items[|items| - 1].value]
  }

  /** No key is given twice and none is also a section. */
  ghost predicate Separate(items: seq<Item>) {
    forall i, j | 0 <= i < |items| && 0 <= j < |items| && i != j ::
      items[i].path != items[j].path && !Under(items[i].path, items[j].path)
  }

  /** The settings of a section stand together. */
  ghost predicate Grouped(items: seq<Item>) {
    forall i, j, k, p {:trigger Under(p, items[i].path), Under(p, items[j].path), Under(p, items[k].path)} |
      0 <= i <= j <= k < |items| && Under(p, items[i].path) && Under(p, items[k].path) :: Under(p, items[j].path)
  }

  // ---------------------------------------------------------------- stacks

  /** The open entries along a path, two spaces a level. */
  function Frames(path: seq<string>, leaf: bool): seq<Frame> {
    seq(|path|, i requires 0 <= i < |path| => Frame(2 * i, path[i], leaf && i == |path| - 1))
  }

  lemma FramesNames(path: seq<string>, leaf: bool)
    ensures Names(Frames(path, leaf)) == path
  {
  }

  lemma FramesSnoc(path: seq<string>, name: string, leaf: bool)
    ensures Frames(path, false) + [Frame(2 * |path|, name, leaf)] == Frames(path + [name], leaf)
  {
  }

  lemma {:induction false} CloseFrames(path: seq<string>, leaf: bool, k: nat)
    requires k < |path|
    ensures Close(Frames(path, leaf), 2 * k) == Frames(path, leaf)[..k + 1]
    decreases |path|
  {
    var stack := Frames(path, leaf);
    if k < |path| - 1 {
      CloseAt(stack, 2 * k, k);
    }
  }

  lemma {:induction false} CloseAt(stack: seq<Frame>, n: nat, k: nat)
    requires k < |stack| && stack[k].indent <= n
    requires forall i | k < i < |stack| :: stack[i].indent > n
    ensures Close(stack, n) == stack[..k + 1]
  {
    if k < |stack| - 1 {
      CloseAt(stack[..|stack| - 1], n, k);
      assert stack[..|stack| - 1][..k + 1] == stack[..k + 1];
    } else {
      assert stack[..k + 1] == stack;
    }
  }

  /** A line k levels deep stands below the first k names of the path. */
  lemma AroundFrames(path: seq<string>, leaf: bool, k: nat)
    requires k < |path| || (k == |path| && !leaf)
    ensures Around(Frames(path, leaf), 2 * k) == Some(Frames(path[..k], false))
  {
    var stack := Frames(path, leaf);
    if k < |path| {
      CloseFrames(path, leaf, k);
      assert stack[..k + 1][..k] == Frames(path[..k], false);
    } else {
      assert path[..k] == path;
    }
  }

  // ---------------------------------------------------------------- reading printed lines

  lemma {:induction false} ReadConcat(d: Doc, a: seq<Line>, b: seq<Line>)
    ensures ReadFrom(d, a + b)
         == match ReadFrom(d, a) case Err(e) => Err(e) case Ok(p) => ReadFrom(p, b)
  {
    hide ReadLine;
    if b == [] {
      assert a + b == a;
    } else {
      ReadConcat(d, a, b[..|b| - 1]);
      assert (a + b)[..|a + b| - 1] == a + b[..|b| - 1];
    }
  }

  lemma ReadSnoc(d: Doc, lines: seq<Line>, l: Line)
    ensures ReadFrom(d, lines + [l])
         == match ReadFrom(d, lines) case Err(e) => Err(e) case Ok(p) => ReadLine(p, l)
  {
    assert (lines + [l])[..|lines|] == lines;
  }

  function Levels(sections: seq<string>, from: nat, to: nat): set<seq<string>>
    requires from <= to <= |sections|
  {
    set j | from < j <= to :: sections[..j]
  }

  lemma LevelsStep(sections: seq<string>, from: nat, to: nat)
    requires from < to <= |sections|
    ensures Levels(sections, from, to) == Levels(sections, from, to - 1) + {sections[..to]}
    ensures sections[..to] !in Levels(sections, from, to - 1)
  {
    forall j | from < j <= to - 1 ensures sections[..j] != sections[..to] {
      assert |sections[..j]| == j;
    }
  }

  /** Reading one header right below the first k names of a path. */
  lemma ReadHeader(d: Doc, sections: seq<string>, k: nat)
    requires k < |sections| && Around(d.stack, 2 * k) == Some(Frames(sections[..k], false))
    ensures var r, path := ReadLine(d, Header(2 * k, sections[k])), sections[..k + 1];
      && (r.Ok? <==> path !in d.sections && path !in d.values)
      && (r.Ok? ==>
            && r.value.sections == d.sections + {path} && r.value.values == d.values
            && Around(r.value.stack, 2 * (k + 1)) == Some(Frames(path, false)))
  {
    hide Around, Frames;
    FramesNames(sections[..k], false);
    FramesSnoc(sections[..k], sections[k], false);
    assert sections[..k] + [sections[k]] == sections[..k + 1];
    AroundFrames(sections[..k + 1], false, k + 1);
    assert sections[..k + 1][..k + 1] == sections[..k + 1];
  }

  lemma NoHeaders(d: Doc, sections: seq<string>, from: nat)
    requires from <= |sections|
    ensures ReadFrom(d, Headers(sections, from, from)) == Ok(d) && Levels(sections, from, from) == {}
  {
  }

  lemma HeadersStep(sections: seq<string>, from: nat, to: nat)
    requires from < to <= |sections|
    ensures Headers(sections, from, to) == Headers(sections, from, to - 1) + [Header(2 * (to - 1), sections[to - 1])]
  {
  }

  /** Headers are read as long as none of their sections is known already. */
  lemma {:induction false} ReadHeaders(d: Doc, sections: seq<string>, from: nat, to: nat)
    requires from <= to <= |sections|
    requires Around(d.stack, 2 * from) == Some(Frames(sections[..from], false))
    ensures var r, levels := ReadFrom(d, Headers(sections, from, to)), Levels(sections, from, to);
      && (r.Ok? <==> levels !! d.sections && levels !! d.values.Keys)
      && (r.Ok? ==>
            && r.value.sections == d.sections + levels && r.value.values == d.values
            && Around(r.value.stack, 2 * to) == Some(Frames(sections[..to], false)))
  {
    hide *;
    if from == to {
      NoHeaders(d, sections, from);
    } else {
      ReadHeaders(d, sections, from, to - 1);
      LevelsStep(sections, from, to);
      HeadersStep(sections, from, to);
      ReadSnoc(d, Headers(sections, from, to - 1), Header(2 * (to - 1), sections[to - 1]));
      var r := ReadFrom(d, Headers(sections, from, to - 1));
      if r.Ok? { ReadHeader(r.value, sections, to - 1); }
    }
  }

  /** The stack after the settings so far. */
  function StackAfter(items: seq<Item>): seq<Frame> {
    if items == [] then [] else Frames(items[|items| - 1].path, true)
  }

  lemma AroundOpen(items: seq<Item>, sections: seq<string>)
    requires Pathed(items)
    ensures var c := Common(OpenAfter(items), sections);
      Around(StackAfter(items), 2 * c) == Some(Frames(sections[..c], false))
  {
    var c := Common(OpenAfter(items), sections);
    if items != [] {
      var prev := items[|items| - 1].path;
      AroundFrames(prev, true, c);
      assert prev[..c] == Sections(prev)[..c] == sections[..c];
    } else {
      assert Frames(sections[..0], false) == [];
    }
  }

  /** Reading the lines of one more setting. */
  lemma ReadItem(items: seq<Item>, d: Doc, item: Item)
    requires Pathed(items) && item.path != [] && d.stack == StackAfter(items)
    ensures var r, s := ReadFrom(d, ItemLines(OpenAfter(items), item)), Sections(item.path);
      var levels := Levels(s, Common(OpenAfter(items), s), |s|);
      && (r.Ok? <==> levels !! d.sections && levels !! d.values.Keys && item.path !in d.sections && item.path !in d.values)
      && (r.Ok? ==> r.value == Doc(Frames(item.path, true), d.sections + levels, d.values[item.path := item.value]))
  {
    var s := Sections(item.path);
    var c := Common(OpenAfter(items), s);
    var leaf := item.path[|s|];
    AroundOpen(items, s);
    hide Around, Frames, Levels, Common;
    ReadHeaders(d, s, c, |s|);
    ReadSnoc(d, Headers(s, c, |s|), Entry(2 * |s|, leaf, item.value));
    assert s[..|s|] == s && s + [leaf] == item.path;
    FramesNames(s, false);
    FramesSnoc(s, leaf, true);
    LevelsShorter(s, c, |s|);
  }

  lemma LevelsShorter(sections: seq<string>, from: nat, to: nat)
    requires from <= to <= |sections|
    ensures forall p | p in Levels(sections, from, to) :: |p| <= |sections|
  {
  }

  // ---------------------------------------------------------------- the round trip

  lemma {:induction false} SectionsOfHas(items: seq<Item>, p: seq<string>)
    ensures p in SectionsOf(items) <==> exists i :: 0 <= i < |items| && Under(p, items[i].path)
  {
    if items != [] {
      var front, last := items[..|items| - 1], items[|items| - 1];
      SectionsOfHas(front, p);
      PrefixesAre(last.path, p);
      if i :| 0 <= i < |items| && Under(p, items[i].path) {
        if i < |front| { assert Under(p, front[i].path); }
      }
      if i :| 0 <= i < |front| && Under(p, front[i].path) { assert Under(p, items[i].path); }
    }
  }

  lemma PrefixesAre(path: seq<string>, p: seq<string>)
    ensures p in Prefixes(path) <==> Under(p, path)
  {
    if Under(p, path) { assert p == path[..|p|]; }
  }

  lemma {:induction false} ValuesOfHas(items: seq<Item>, p: seq<string>)
    ensures p in ValuesOf(items) <==> exists i :: 0 <= i < |items| && items[i].path == p
  {
    if items != [] {
      var front, last := items[..|items| - 1], items[|items| - 1];
      ValuesOfHas(front, p);
      if i :| 0 <= i < |items| && items[i].path == p {
        if i < |front| { assert front[i].path == p; }
      }
      if i :| 0 <= i < |front| && front[i].path == p { assert items[i].path == p; }
    }
  }

  lemma {:induction false} ValuesOfAt(items: seq<Item>, i: nat)
    requires i < |items| && forall j | i < j < |items| :: items[j].path != items[i].path
    ensures items[i].path in ValuesOf(items) && ValuesOf(items)[items[i].path] == items[i].value
  {
    if i < |items| - 1 {
      ValuesOfAt(items[..|items| - 1], i);
    }
  }

  /** Whether one more setting fits in with those before it. */
  ghost predicate Fits(front: seq<Item>, last: Item) {
    && last.path !in ValuesOf(front) && last.path !in SectionsOf(front)
    && Prefixes(last.path) !! ValuesOf(front).Keys
  }

  lemma SeparateSnoc(items: seq<Item>)
    requires items != []
    ensures Separate(items) <==> Separate(items[..|items| - 1]) && Fits(items[..|items| - 1], items[|items| - 1])
  {
    var front, last := items[..|items| - 1], items[|items| - 1];
    if Separate(items) {
      SeparateFits(items);
    }
    if Separate(front) && Fits(front, last) {
      forall i, j | 0 <= i < |items| && 0 <= j < |items| && i != j
        ensures items[i].path != items[j].path && !Under(items[i].path, items[j].path)
      {
        FitsApart(front, last, if i < |front| then i else j);
        if i < |front| && j < |front| { assert front[i] == items[i] && front[j] == items[j]; }
      }
    }
  }

  lemma FitsApart(front: seq<Item>, last: Item, i: nat)
    requires Fits(front, last)
    ensures i < |front| ==>
      front[i].path != last.path && !Under(front[i].path, last.path) && !Under(last.path, front[i].path)
  {
    if i < |front| {
      ValuesOfHas(front, front[i].path);
      ValuesOfHas(front, last.path);
      SectionsOfHas(front, last.path);
      PrefixesAre(last.path, front[i].path);
      assert front[i].path in ValuesOf(front);
    }
  }

  lemma SeparateFits(items: seq<Item>)
    requires items != [] && Separate(items)
    ensures Separate(items[..|items| - 1]) && Fits(items[..|items| - 1], items[|items| - 1])
  {
    var front, last := items[..|items| - 1], items[|items| - 1];
    ValuesOfHas(front, last.path);
    SectionsOfHas(front, last.path);
    forall p | p in Prefixes(last.path) ensures p !in ValuesOf(front) {
      PrefixesAre(last.path, p);
      ValuesOfHas(front, p);
    }
  }

  lemma {:induction false} CommonIsLongest(a: seq<string>, b: seq<string>, j: nat)
    requires j <= |a| && j <= |b| && a[..j] == b[..j]
    ensures j <= Common(a, b)
  {
    if j > 0 {
      assert a[0] == a[..j][0] == b[..j][0] == b[0];
      assert a[1..][..j - 1] == a[..j][1..] == b[..j][1..] == b[1..][..j - 1];
      CommonIsLongest(a[1..], b[1..], j - 1);
    }
  }

  /** A section of the new setting that was printed before is still open. */
  lemma SeenIsOpen(items: seq<Item>, j: nat)
    requires items != [] && Pathed(items) && Grouped(items)
    requires var s := Sections(items[|items| - 1].path); 0 < j <= |s| && s[..j] in SectionsOf(items[..|items| - 1])
    ensures j <= Common(OpenAfter(items[..|items| - 1]), Sections(items[|items| - 1].path))
  {
    var front, last := items[..|items| - 1], items[|items| - 1];
    var p := Sections(last.path)[..j];
    SectionsOfHas(front, p);
    var i :| 0 <= i < |front| && Under(p, front[i].path);
    assert last.path[..j] == p;
    assert Under(p, items[i].path) && Under(p, items[|items| - 1].path);
    assert Under(p, items[|items| - 2].path);
    assert OpenAfter(front)[..j] == items[|items| - 2].path[..j] == p;
    CommonIsLongest(OpenAfter(front), Sections(last.path), j);
  }

  /** A section that is still open was printed before. */
  lemma OpenWasPrinted(front: seq<Item>, s: seq<string>, j: nat)
    requires front != [] && 0 < j <= Common(OpenAfter(front), s)
    ensures s[..j] in SectionsOf(front)
  {
    var c := Common(OpenAfter(front), s);
    var prev := front[|front| - 1].path;
    SectionsOfHas(front, s[..j]);
    assert prev[..j] == OpenAfter(front)[..c][..j] == s[..c][..j] == s[..j];
    assert Under(s[..j], front[|front| - 1].path);
  }

  lemma PrefixesAreLevels(path: seq<string>, c: nat)
    requires path != [] && c < |path|
    ensures var s := Sections(path); Prefixes(path) == Levels(s, 0, c) + Levels(s, c, |s|)
  {
    var s := Sections(path);
    forall p | p in Prefixes(path) ensures p in Levels(s, 0, c) + Levels(s, c, |s|) {
      var n :| 0 < n < |path| && p == path[..n];
      assert p == s[..n];
    }
    forall j | 0 < j <= |s| ensures s[..j] in Prefixes(path) {
      assert s[..j] == path[..j];
    }
  }

  /** Of the sections a new setting lies in, exactly those not open anymore are
      new, because the settings of a section stand together. */
  lemma NewLevels(items: seq<Item>)
    requires items != [] && Pathed(items) && Grouped(items)
    ensures var front, last := items[..|items| - 1], items[|items| - 1];
      var s := Sections(last.path);
      var c := Common(OpenAfter(front), s);
      && Levels(s, c, |s|) !! SectionsOf(front)
      && Prefixes(last.path) == Levels(s, 0, c) + Levels(s, c, |s|)
      && Levels(s, 0, c) <= SectionsOf(front)
  {
    hide Common, SectionsOf, Prefixes, Grouped;
    var front, last := items[..|items| - 1], items[|items| - 1];
    var s := Sections(last.path);
    var c := Common(OpenAfter(front), s);
    forall j | 0 < j <= |s| && s[..j] in SectionsOf(front) ensures j <= c {
      SeenIsOpen(items, j);
    }
    forall j | 0 < j <= c ensures s[..j] in SectionsOf(front) {
      OpenWasPrinted(front, s, j);
    }
    PrefixesAreLevels(last.path, c);
  }

  /** Values are never sections, in whatever was read. */
  lemma SeparateDisjoint(items: seq<Item>)
    requires Separate(items)
    ensures SectionsOf(items) !! ValuesOf(items).Keys
  {
    forall p | p in SectionsOf(items) ensures p !in ValuesOf(items) {
      SectionsOfHas(items, p);
      ValuesOfHas(items, p);
      var i :| 0 <= i < |items| && Under(p, items[i].path);
    }
  }

  /** Reading what was printed works exactly if no key is given twice or is also a
      section, and then gives back every key with its value; no section header
      occurs twice, for the reader refuses that. */
  lemma {:induction false} RoundTrip(items: seq<Item>)
    requires Pathed(items) && Grouped(items)
    ensures ReadFrom(EMPTY_DOC, Print(items)).Ok? <==> Separate(items)
    ensures Separate(items) ==>
      ReadFrom(EMPTY_DOC, Print(items)) == Ok(Doc(StackAfter(items), SectionsOf(items), ValuesOf(items)))
  {
    hide Separate, Grouped, Fits, Frames, Levels, Common, ItemLines, Prefixes;
    if items == [] {
      SeparateNone();
    } else {
      var front, last := items[..|items| - 1], items[|items| - 1];
      GroupedFront(items);
      RoundTrip(front);
      SeparateSnoc(items);
      ReadConcat(EMPTY_DOC, Print(front), ItemLines(OpenAfter(front), last));
      if Separate(front) {
        var d := Doc(StackAfter(front), SectionsOf(front), ValuesOf(front));
        ReadItem(front, d, last);
        NewLevels(items);
        SeparateDisjoint(front);
        FitsIff(items);
        var s := Sections(last.path);
        assert SectionsOf(items) == d.sections + Levels(s, Common(OpenAfter(front), s), |s|);
      }
    }
  }

  lemma SeparateNone()
    ensures Separate([])
  {
  }

  lemma GroupedFront(items: seq<Item>)
    requires items != [] && Grouped(items)
    ensures Grouped(items[..|items| - 1])
  {
    var front := items[..|items| - 1];
    forall i, j, k, p | 0 <= i <= j <= k < |front| && Under(p, front[i].path) && Under(p, front[k].path)
      ensures Under(p, front[j].path)
    {
      assert Under(p, items[i].path) && Under(p, items[k].path);
      assert Under(p, items[j].path);
    }
  }

  lemma FitsIff(items: seq<Item>)
    requires items != [] && Pathed(items) && Grouped(items) && Separate(items[..|items| - 1])
    ensures var front, last := items[..|items| - 1], items[|items| - 1];
      var s := Sections(last.path);
      Fits(front, last) <==>
        && last.path !in ValuesOf(front) && last.path !in SectionsOf(front)
        && Levels(s, Common(OpenAfter(front), s), |s|) !! ValuesOf(front).Keys
  {
    NewLevels(items);
    SeparateDisjoint(items[..|items| - 1]);
    hide Levels, Common, Prefixes, Grouped, Separate;
  }
}
