/** Writing the configuration file: the settings of each category, in string order
    of their keys, as one nested mapping. */
module ConfigFile {
  import opened Wrappers
  import opened Yaml
  import opened DottedKeys

  datatype Setting = Setting(key: string, value: string)

  function First(s: Setting): string {
    Split(s.key)[0]
  }

  /** The settings of a category: keys of that category, in strict string order. */
  ghost predicate SortedCategory(cat: string, entries: seq<Setting>) {
    && (forall i | 0 <= i < |entries| :: |Split(entries[i].key)| > 1 && First(entries[i]) == cat)
    && (forall i, j | 0 <= i < j < |entries| :: LexLe(entries[i].key, entries[j].key) && entries[i].key != entries[j].key)
  }

  /** What the registry holds: each category once, with its own settings. */
  ghost predicate Registry(order: seq<string>, categories: map<string, seq<Setting>>) {
    && (forall i, j | 0 <= i < j < |order| :: order[i] != order[j])
    && (forall cat | cat in categories :: SortedCategory(cat, categories[cat]))
  }

  function EntriesOf(categories: map<string, seq<Setting>>, cat: string): seq<Setting> {
    if cat in categories then categories[cat] else []
  }

  /** All settings, category by category. */
  function AllSettings(order: seq<string>, categories: map<string, seq<Setting>>): seq<Setting> {
    if order == [] then []
    else AllSettings(order[..|order| - 1], categories) + EntriesOf(categories, order[|order| - 1])
  }

  function ItemOf(s: Setting): Item {
    Item(Split(s.key), s.value)
  }

  function Items(settings: seq<Setting>): seq<Item> {
    seq(|settings|, i requires 0 <= i < |settings| => ItemOf(settings[i]))
  }

  lemma ItemsSnoc(settings: seq<Setting>, s: Setting)
    ensures Pathed(Items(settings + [s])) && Pathed(Items(settings))
    ensures Print(Items(settings + [s])) == Print(Items(settings)) + ItemLines(OpenAfter(Items(settings)), ItemOf(s))
  {
    PathedItems(settings + [s]);
    PathedItems(settings);
    hide Split, ItemLines, OpenAfter, Pathed;
    assert Items(settings + [s])[..|settings|] == Items(settings);
  }

  lemma PathedItems(settings: seq<Setting>)
    ensures Pathed(Items(settings))
  {
  }

  // ---------------------------------------------------------------- sorted settings stand together

  /** Settings of one category follow each other, in strict string order. */
  ghost predicate Ordered(all: seq<Setting>) {
    && (forall i, j | 0 <= i < j < |all| && First(all[i]) == First(all[j]) ::
          LexLe(all[i].key, all[j].key) && all[i].key != all[j].key)
    && (forall i, j, k | 0 <= i <= j <= k < |all| && First(all[i]) == First(all[k]) :: First(all[j]) == First(all[i]))
  }

  lemma {:induction false} AllFirsts(order: seq<string>, categories: map<string, seq<Setting>>)
    requires Registry(order, categories)
    ensures forall i | 0 <= i < |AllSettings(order, categories)| :: First(AllSettings(order, categories)[i]) in order
  {
    hide First;
    if order != [] {
      var front := order[..|order| - 1];
      AllFirsts(front, categories);
      FirstsOf(categories, order[|order| - 1], order);
    }
  }

  lemma FirstsOf(categories: map<string, seq<Setting>>, cat: string, order: seq<string>)
    requires Registry(order, categories)
    ensures forall i | 0 <= i < |EntriesOf(categories, cat)| :: First(EntriesOf(categories, cat)[i]) == cat
  {
  }

  lemma {:induction false} AllOrdered(order: seq<string>, categories: map<string, seq<Setting>>)
    requires Registry(order, categories)
    ensures Ordered(AllSettings(order, categories))
  {
    hide First, LexLe;
    if order != [] {
      var front, cat := order[..|order| - 1], order[|order| - 1];
      AllOrdered(front, categories);
      AllFirsts(front, categories);
      FirstsOf(categories, cat, order);
      OrderedAppend(AllSettings(front, categories), EntriesOf(categories, cat), cat);
    }
  }

  lemma OrderedAppend(a: seq<Setting>, b: seq<Setting>, cat: string)
    requires Ordered(a) && SortedCategory(cat, b) && forall i | 0 <= i < |a| :: First(a[i]) != cat
    ensures Ordered(a + b)
  {
    hide First, LexLe;
    assert forall i | 0 <= i < |b| :: First(b[i]) == cat by { SortedFirsts(cat, b); }
  }

  lemma SortedFirsts(cat: string, b: seq<Setting>)
    requires SortedCategory(cat, b)
    ensures forall i | 0 <= i < |b| :: First(b[i]) == cat
  {
  }

  lemma OrderedGrouped(all: seq<Setting>)
    requires Ordered(all)
    ensures Grouped(Items(all))
  {
    hide LexLe, Split;
    var items := Items(all);
    forall i, j, k, p | 0 <= i <= j <= k < |items| && Under(p, items[i].path) && Under(p, items[k].path)
      ensures Under(p, items[j].path)
    {
      assert items[i].path[0] == items[i].path[..|p|][0] == p[0] == items[k].path[..|p|][0] == items[k].path[0];
      assert First(all[i]) == First(all[k]);
      LexRefl(all[j].key);
      SectionContiguous(all[i].key, all[j].key, all[k].key, p);
    }
  }

  /** Different settings have different paths. */
  lemma OrderedDistinct(all: seq<Setting>, i: nat, j: nat)
    requires Ordered(all) && i < j < |all|
    ensures Items(all)[i].path != Items(all)[j].path
  {
    JoinSplit(all[i].key);
    JoinSplit(all[j].key);
    hide LexLe, Split, Join;
  }

  /** No key is also a section of another key. */
  ghost predicate NoKeyIsSection(all: seq<Setting>) {
    forall i, j | 0 <= i < |all| && 0 <= j < |all| :: !Under(Split(all[i].key), Split(all[j].key))
  }

  lemma SeparateIff(all: seq<Setting>)
    requires Ordered(all)
    ensures Separate(Items(all)) <==> NoKeyIsSection(all)
  {
    hide LexLe, Split;
    var items := Items(all);
    forall i, j | 0 <= i < |items| && 0 <= j < |items| && i != j ensures items[i].path != items[j].path {
      OrderedDistinct(all, if i < j then i else j, if i < j then j else i);
    }
    if Separate(items) {
      forall i, j | 0 <= i < |all| && 0 <= j < |all| ensures !Under(Split(all[i].key), Split(all[j].key)) {
        assert items[i].path == Split(all[i].key) && items[j].path == Split(all[j].key);
      }
    }
    if NoKeyIsSection(all) {
      forall i, j | 0 <= i < |items| && 0 <= j < |items| && i != j ensures !Under(items[i].path, items[j].path) {
        assert items[i].path == Split(all[i].key) && items[j].path == Split(all[j].key);
      }
    }
  }

  // ---------------------------------------------------------------- the lines that carry something

  function Code(lines: seq<Line>): seq<Line> {
    if lines == [] then []
    else if lines[|lines| - 1].Remark? then Code(lines[..|lines| - 1])
    else Code(lines[..|lines| - 1]) + [lines[|lines| - 1]]
  }

  lemma CodeSnoc(lines: seq<Line>, l: Line)
    ensures Code(lines + [l]) == if l.Remark? then Code(lines) else Code(lines) + [l]
  {
    assert (lines + [l])[..|lines|] == lines;
  }

  lemma {:induction false} ReadCode(d: Doc, lines: seq<Line>)
    ensures ReadFrom(d, Code(lines)) == ReadFrom(d, lines)
  {
    hide Around;
    if lines != [] {
      var front, last := lines[..|lines| - 1], lines[|lines| - 1];
      ReadCode(d, front);
      if !last.Remark? { ReadSnoc(d, Code(front), last); }
    }
  }

  /** A reader's values are exactly the settings, each under its key. */
  ghost predicate HoldsSettings(values: map<seq<string>, string>, all: seq<Setting>) {
    && (forall i | 0 <= i < |all| :: Split(all[i].key) in values && values[Split(all[i].key)] == all[i].value)
    && (forall p | p in values :: exists i :: 0 <= i < |all| && p == Split(all[i].key))
  }

  lemma ValueAt(all: seq<Setting>, i: nat)
    requires Ordered(all) && i < |all|
    ensures Split(all[i].key) in ValuesOf(Items(all)) && ValuesOf(Items(all))[Split(all[i].key)] == all[i].value
  {
    hide Split, ValuesOf, Ordered;
    forall j | i < j < |all| ensures Items(all)[j].path != Items(all)[i].path { OrderedDistinct(all, i, j); }
    ValuesOfAt(Items(all), i);
    assert Items(all)[i] == ItemOf(all[i]);
  }

  lemma ValuesHold(all: seq<Setting>)
    requires Ordered(all)
    ensures HoldsSettings(ValuesOf(Items(all)), all)
  {
    hide Split, ValuesOf, Ordered;
    forall i | 0 <= i < |all| ensures Split(all[i].key) in ValuesOf(Items(all)) && ValuesOf(Items(all))[Split(all[i].key)] == all[i].value {
      ValueAt(all, i);
    }
    forall p | p in ValuesOf(Items(all)) ensures exists i :: 0 <= i < |all| && p == Split(all[i].key) {
      ValuesOfHas(Items(all), p);
      var i :| 0 <= i < |Items(all)| && Items(all)[i].path == p;
      assert p == Split(all[i].key);
    }
  }

  /** The written file reads back exactly if no key is also a section, and then as
      every setting under its key, and nothing else. */
  lemma FileReadsBack(order: seq<string>, categories: map<string, seq<Setting>>, lines: seq<Line>)
    requires Registry(order, categories)
    requires Pathed(Items(AllSettings(order, categories)))
    requires Code(lines) == Print(Items(AllSettings(order, categories)))
    ensures ReadFrom(EMPTY_DOC, lines).Ok? <==> NoKeyIsSection(AllSettings(order, categories))
    ensures ReadFrom(EMPTY_DOC, lines).Ok? ==>
      HoldsSettings(ReadFrom(EMPTY_DOC, lines).value.values, AllSettings(order, categories))
  {
    hide *;
    var all := AllSettings(order, categories);
    ReadCode(EMPTY_DOC, lines);
    AllOrdered(order, categories);
    OrderedGrouped(all);
    SeparateIff(all);
    RoundTrip(Items(all));
    ValuesHold(all);
  }

  // ---------------------------------------------------------------- the printer

  /** The part of a key behind its first dot. */
  function BehindDot(key: string): Option<string> {
    if key == "" then None else if key[0] == '.' then Some(key[1..]) else BehindDot(key[1..])
  }

  lemma {:induction false} BehindDotSplit(key: string)
    ensures BehindDot(key).Some? <==> |Split(key)| > 1
    ensures BehindDot(key).Some? ==> Split(key) == [Split(key)[0]] + Split(BehindDot(key).value)
  {
    if key != "" && key[0] != '.' {
      BehindDotSplit(key[1..]);
      var rest := Split(key[1..]);
      assert Split(key)[1..] == rest[1..];
    } else if key != "" {
      assert Split(key)[1..] == Split(key[1..]);
    }
  }

  method CommonLen(open: seq<string>, sectionPath: seq<string>) returns (n: nat)
    ensures n == Common(open, sectionPath)
  {
    n := 0;
    while n < |open| && n < |sectionPath| && open[n] == sectionPath[n]
      invariant n <= |open| && n <= |sectionPath| && open[..n] == sectionPath[..n]
    {
      n := n + 1;
    }
    CommonIsLongest(open, sectionPath, n);
    ghost var m := Common(open, sectionPath);
    assert forall i | 0 <= i < m :: open[i] == open[..m][i] == sectionPath[..m][i] == sectionPath[i];
  }

  /** Section headers inside a category stand one level deeper than their position. */
  method SubHeaders(sectionPath: seq<string>, from: nat, ghost cat: string, before: seq<Line>) returns (lines: seq<Line>)
    requires from <= |sectionPath|
    ensures Code(lines) == Code(before) + Headers([cat] + sectionPath, from + 1, |sectionPath| + 1)
  {
    hide Code;
    lines := before;
    for j := from to |sectionPath|
      invariant Code(lines) == Code(before) + Headers([cat] + sectionPath, from + 1, j + 1)
    {
      CodeSnoc(lines, Header(2 * (j + 1), sectionPath[j]));
      lines := lines + [Header(2 * (j + 1), sectionPath[j])];
    }
  }

  lemma {:induction false} HeadersSplit(sections: seq<string>, to: nat)
    requires 0 < to <= |sections|
    ensures Headers(sections, 0, to) == [Header(0, sections[0])] + Headers(sections, 1, to)
  {
    if to > 1 { HeadersSplit(sections, to - 1); }
  }

  lemma CommonBelow(cat: string, open: seq<string>, sectionPath: seq<string>)
    ensures Common([cat] + open, [cat] + sectionPath) == 1 + Common(open, sectionPath)
  {
    assert ([cat] + open)[1..] == open && ([cat] + sectionPath)[1..] == sectionPath;
  }

  /** The lines of a setting inside its category, below the sections that are open there. */
  function Below(cat: string, open: seq<string>, fields: seq<string>, value: string): seq<Line>
    requires fields != []
  {
    var sp := fields[..|fields| - 1];
    Headers([cat] + sp, Common(open, sp) + 1, |sp| + 1) + [Entry(2 * (|sp| + 1), fields[|fields| - 1], value)]
  }

  lemma BelowIs(cat: string, open: seq<string>, fields: seq<string>, value: string)
    requires fields != []
    ensures var sp := fields[..|fields| - 1];
      Below(cat, open, fields, value)
        == Headers([cat] + sp, Common(open, sp) + 1, |sp| + 1) + [Entry(2 * (|sp| + 1), fields[|fields| - 1], value)]
  {
  }

  lemma SettingLines(cat: string, open: seq<string>, s: Setting, fields: seq<string>)
    requires fields != [] && Split(s.key) == [cat] + fields
    ensures ItemLines([cat] + open, ItemOf(s)) == Below(cat, open, fields, s.value)
  {
    var sp := fields[..|fields| - 1];
    assert Sections([cat] + fields) == [cat] + sp;
    CommonBelow(cat, open, sp);
    hide Common;
  }

  /** The first setting of a category also brings the category header. */
  lemma FirstLines(before: seq<string>, cat: string, s: Setting, fields: seq<string>)
    requires fields != [] && Split(s.key) == [cat] + fields && (before != [] ==> before[0] != cat)
    ensures ItemLines(before, ItemOf(s)) == [Header(0, cat)] + Below(cat, [], fields, s.value)
  {
    var sp := fields[..|fields| - 1];
    assert Sections([cat] + fields) == [cat] + sp;
    HeadersSplit([cat] + sp, |sp| + 1);
  }

  /** What stands in the file when some settings of a category are still to come:
      the settings so far, and right after the category header nothing else. */
  ghost predicate Written(lines: seq<Line>, done: seq<Setting>, cat: string, open: seq<string>, first: bool) {
    && Pathed(Items(done))
    && if first then
         && Code(lines) == Print(Items(done)) + [Header(0, cat)] && open == []
         && (OpenAfter(Items(done)) != [] ==> OpenAfter(Items(done))[0] != cat)
       else Code(lines) == Print(Items(done)) && OpenAfter(Items(done)) == [cat] + open
  }

  lemma SettingWritten(lines: seq<Line>, more: seq<Line>, done: seq<Setting>, cat: string, open: seq<string>, first: bool,
                       s: Setting, fields: seq<string>)
    requires Written(lines, done, cat, open, first)
    requires fields != [] && Split(s.key) == [cat] + fields
    requires Code(more) == Code(lines) + Below(cat, open, fields, s.value)
    ensures Written(more, done + [s], cat, fields[..|fields| - 1], false)
  {
    hide *;
    ItemsSnoc(done, s);
    OpenAfterSnoc(done, s, cat, fields);
    LinesWritten(lines, done, cat, open, first, s, fields);
    WrittenAgain(more, done + [s], cat, fields[..|fields| - 1]);
  }

  lemma WrittenAgain(lines: seq<Line>, done: seq<Setting>, cat: string, open: seq<string>)
    requires Pathed(Items(done)) && Code(lines) == Print(Items(done)) && OpenAfter(Items(done)) == [cat] + open
    ensures Written(lines, done, cat, open, false)
  {
  }

  lemma OpenAfterSnoc(done: seq<Setting>, s: Setting, cat: string, fields: seq<string>)
    requires fields != [] && Split(s.key) == [cat] + fields
    ensures OpenAfter(Items(done + [s])) == [cat] + fields[..|fields| - 1]
  {
    assert Items(done + [s])[|done|] == ItemOf(s);
  }

  lemma LinesWritten(lines: seq<Line>, done: seq<Setting>, cat: string, open: seq<string>, first: bool, s: Setting, fields: seq<string>)
    requires Written(lines, done, cat, open, first)
    requires fields != [] && Split(s.key) == [cat] + fields
    ensures Pathed(Items(done))
    ensures Code(lines) + Below(cat, open, fields, s.value) == Print(Items(done)) + ItemLines(OpenAfter(Items(done)), ItemOf(s))
  {
    hide Code, Print, ItemLines, Split, Items, OpenAfter, Below;
    if first {
      FirstLines(OpenAfter(Items(done)), cat, s, fields);
      Assoc(Print(Items(done)), Header(0, cat), Below(cat, [], fields, s.value));
    } else {
      SettingLines(cat, open, s, fields);
    }
  }

  lemma Assoc(a: seq<Line>, l: Line, b: seq<Line>)
    ensures a + [l] + b == a + ([l] + b)
  {
  }

  /** Writes one setting below the sections that are open. */
  method WriteSetting(cat: string, s: Setting, open: seq<string>, last: bool, before: seq<Line>, ghost done: seq<Setting>, ghost first: bool)
    returns (lines: seq<Line>, sections: seq<string>)
    requires Written(before, done, cat, open, first) && |Split(s.key)| > 1 && First(s) == cat
    ensures Written(lines, done + [s], cat, sections, false)
  {
    BehindDotSplit(s.key);
    assert Split(s.key)[0] == cat;
    BelowIs(cat, open, Split(BehindDot(s.key).value), s.value);
    hide *;
    var fields := Split(BehindDot(s.key).value);
    var leafName := fields[|fields| - 1];
    sections := fields[..|fields| - 1];
    var commonLen := CommonLen(open, sections);
    lines := SubHeaders(sections, commonLen, cat, before);
    lines := AddEntry(lines, Entry(2 * (|sections| + 1), leafName, s.value), last);
    SettingWritten(before, lines, done, cat, open, first, s, fields);
  }

  /** A comment, the entry, and a blank line unless it is the last of its category. */
  method AddEntry(before: seq<Line>, entry: Line, last: bool) returns (lines: seq<Line>)
    requires !entry.Remark?
    ensures Code(lines) == Code(before) + [entry]
  {
    hide Code;
    CodeSnoc(before, Remark);
    CodeSnoc(before + [Remark], entry);
    CodeSnoc(before + [Remark] + [entry], Remark);
    lines := before + [Remark] + [entry];
    if !last {
      lines := lines + [Remark];
    }
  }

  /** Writes the settings of one category. */
  method WriteCategory(cat: string, entries: seq<Setting>, before: seq<Line>, ghost done: seq<Setting>) returns (lines: seq<Line>)
    requires entries != [] && SortedCategory(cat, entries)
    requires Pathed(Items(done)) && Code(before) == Print(Items(done))
    requires OpenAfter(Items(done)) != [] ==> OpenAfter(Items(done))[0] != cat
    ensures Pathed(Items(done + entries)) && Code(lines) == Print(Items(done + entries))
  {
    hide Code, Split, Print, OpenAfter, LexLe;
    CodeSnoc(before, Remark);
    CodeSnoc(before + [Remark], Remark);
    CodeSnoc(before + [Remark] + [Remark], Remark);
    CodeSnoc(before + [Remark] + [Remark] + [Remark], Header(0, cat));
    lines := before + [Remark] + [Remark] + [Remark] + [Header(0, cat)];
    var openSections: seq<string> := [];
    assert done + entries[..0] == done;
    for i := 0 to |entries|
      invariant Written(lines, done + entries[..i], cat, openSections, i == 0)
    {
      assert done + entries[..i] + [entries[i]] == done + entries[..i + 1];
      lines, openSections := WriteSetting(cat, entries[i], openSections, i == |entries| - 1, lines, done + entries[..i], i == 0);
    }
    assert entries[..|entries|] == entries;
    CodeSnoc(lines, Remark);
    lines := lines + [Remark];
  }

  /** Writes the whole file: the categories in registration order. */
  method GenerateCommentedYAML(order: seq<string>, categories: map<string, seq<Setting>>) returns (lines: seq<Line>)
    requires Registry(order, categories)
    ensures Pathed(Items(AllSettings(order, categories)))
    ensures Code(lines) == Print(Items(AllSettings(order, categories)))
    ensures ReadFrom(EMPTY_DOC, lines).Ok? <==> NoKeyIsSection(AllSettings(order, categories))
    ensures ReadFrom(EMPTY_DOC, lines).Ok? ==>
      HoldsSettings(ReadFrom(EMPTY_DOC, lines).value.values, AllSettings(order, categories))
    ensures ReadFrom(EMPTY_DOC, lines).Ok? ==>
      var values := ReadFrom(EMPTY_DOC, lines).value.values;
      && (forall cat, s | cat in order && cat in categories && s in categories[cat] ::
            Split(s.key) in values && values[Split(s.key)] == s.value)
      && (forall p | p in values ::
            exists cat, s :: cat in order && cat in categories && s in categories[cat] && p == Split(s.key))
  {
    hide Code, Split, Print, OpenAfter, LexLe, ReadFrom, NoKeyIsSection, HoldsSettings, SortedCategory;
    lines := [Remark];
    CodeOfRemark();
    for i := 0 to |order|
      invariant Pathed(Items(AllSettings(order[..i], categories)))
      invariant Code(lines) == Print(Items(AllSettings(order[..i], categories)))
    {
      assert order[..i + 1][..i] == order[..i];
      if order[i] in categories && categories[order[i]] != [] {
        RegistryPrefix(order, categories, i);
        lines := WriteCategory(order[i], categories[order[i]], lines, AllSettings(order[..i], categories));
      } else {
        assert AllSettings(order[..i + 1], categories) == AllSettings(order[..i], categories);
      }
    }
    assert order[..|order|] == order;
    FileReadsBack(order, categories, lines);
    if ReadFrom(EMPTY_DOC, lines).Ok? { EveryCategory(order, categories, ReadFrom(EMPTY_DOC, lines).value.values); }
  }

  lemma {:induction false} AllSettingsHas(order: seq<string>, categories: map<string, seq<Setting>>, s: Setting)
    ensures s in AllSettings(order, categories) <==> exists cat :: cat in order && cat in categories && s in categories[cat]
  {
    if order != [] {
      var front, last := order[..|order| - 1], order[|order| - 1];
      assert order == front + [last];
      AllSettingsHas(front, categories, s);
      assert last in order;
    }
  }

  /** No category is passed over, and nothing else is written. */
  lemma EveryCategory(order: seq<string>, categories: map<string, seq<Setting>>, values: map<seq<string>, string>)
    requires HoldsSettings(values, AllSettings(order, categories))
    ensures forall cat, s | cat in order && cat in categories && s in categories[cat] ::
      Split(s.key) in values && values[Split(s.key)] == s.value
    ensures forall p | p in values ::
      exists cat, s :: cat in order && cat in categories && s in categories[cat] && p == Split(s.key)
  {
    hide Split, AllSettings;
    var all := AllSettings(order, categories);
    forall cat, s | cat in order && cat in categories && s in categories[cat]
      ensures Split(s.key) in values && values[Split(s.key)] == s.value
    {
      AllSettingsHas(order, categories, s);
      var i :| 0 <= i < |all| && all[i] == s;
    }
    forall p | p in values ensures exists cat, s :: cat in order && cat in categories && s in categories[cat] && p == Split(s.key) {
      var i :| 0 <= i < |all| && p == Split(all[i].key);
      AllSettingsHas(order, categories, all[i]);
    }
  }

  lemma CodeOfRemark()
    ensures Code([Remark]) == [] && Print(Items([])) == []
  {
    assert [Remark][..0] == [];
  }

  /** The settings written so far belong to earlier categories. */
  lemma RegistryPrefix(order: seq<string>, categories: map<string, seq<Setting>>, i: nat)
    requires Registry(order, categories) && i < |order|
    ensures OpenAfter(Items(AllSettings(order[..i], categories))) != [] ==>
      OpenAfter(Items(AllSettings(order[..i], categories)))[0] != order[i]
  {
    AllFirsts(order[..i], categories);
    hide Split, AllSettings;
    var all := AllSettings(order[..i], categories);
    if OpenAfter(Items(all)) != [] {
      assert OpenAfter(Items(all))[0] == First(all[|all| - 1]);
    }
  }
}
