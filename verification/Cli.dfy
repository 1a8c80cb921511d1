/** Moving application flags in front of the positional arguments of a subcommand. */
module Cli {
  import opened Wrappers

  /** The flags the application knows, by bare name. */
  datatype FlagInfo = FlagInfo(valueFlags: set<string>, boolFlags: set<string>)

  function TrimDashes(s: string): string {
    if s != "" && s[0] == '-' then TrimDashes(s[1..]) else s
  }

  function CutAtEquals(s: string): string {
    if s == "" || s[0] == '=' then "" else [s[0]] + CutAtEquals(s[1..])
  }

  /** "--datadir=/path" and "-datadir" both give "datadir". */
  function StripFlagName(arg: string): (name: string)
    ensures '=' !in name
    ensures name != "" ==> name[0] != '-'
  {
    CutFacts(TrimDashes(arg));
    TrimFacts(arg);
    CutAtEquals(TrimDashes(arg))
  }

  lemma {:induction false} CutFacts(s: string)
    ensures '=' !in CutAtEquals(s) && (CutAtEquals(s) != "" ==> s != "" && CutAtEquals(s)[0] == s[0])
    ensures '=' !in s ==> CutAtEquals(s) == s
  {
    if s != "" && s[0] != '=' { CutFacts(s[1..]); }
  }

  lemma {:induction false} TrimFacts(s: string)
    ensures TrimDashes(s) != "" ==> TrimDashes(s)[0] != '-'
  {
    if s != "" && s[0] == '-' { TrimFacts(s[1..]); }
  }

  predicate Dashed(arg: string) {
    arg != "" && arg[0] == '-'
  }

  /** A value flag written without "=": the next word is its value. */
  predicate TakesNext(info: FlagInfo, arg: string) {
    Dashed(arg) && StripFlagName(arg) in info.valueFlags && '=' !in arg
  }

  /** Any other flag the application knows. */
  predicate StandsAlone(info: FlagInfo, arg: string) {
    && Dashed(arg) && !TakesNext(info, arg)
    && (StripFlagName(arg) in info.valueFlags || StripFlagName(arg) in info.boolFlags)
  }

  // ---------------------------------------------------------------- units

  /** What the words after a subcommand group into: a flag with its value, if it
      takes one, any other word, and everything from "--" on. */
  datatype Piece = Flag(words: seq<string>) | Positional(word: string) | Rest(tail: seq<string>) {
    function Words(): seq<string> {
      match this
      case Flag(w) => w
      case Positional(w) => [w]
      case Rest(w) => w
    }
  }

  function Pieces(info: FlagInfo, words: seq<string>): seq<Piece> {
    if words == [] then []
    else if words[0] == "--" then [Rest(words)]
    else if TakesNext(info, words[0]) then
      if |words| == 1 then [Flag(words)] else [Flag(words[..2])] + Pieces(info, words[2..])
    else if StandsAlone(info, words[0]) then [Flag(words[..1])] + Pieces(info, words[1..])
    else [Positional(words[0])] + Pieces(info, words[1..])
  }

  function Flatten(ps: seq<Piece>): seq<string> {
    if ps == [] then [] else ps[0].Words() + Flatten(ps[1..])
  }

  /** The pieces of one kind, in their order. */
  function Select(ps: seq<Piece>, flags: bool): seq<Piece> {
    if ps == [] then []
    else if ps[0].Flag? == flags then [ps[0]] + Select(ps[1..], flags)
    else Select(ps[1..], flags)
  }

  /** The words of the flag pieces, or of the others. */
  function Half(info: FlagInfo, words: seq<string>, flags: bool): seq<string> {
    Flatten(Select(Pieces(info, words), flags))
  }

  /** The flags in front, everything else behind. */
  function Sorted(info: FlagInfo, words: seq<string>): seq<string> {
    Half(info, words, true) + Half(info, words, false)
  }

  // ---------------------------------------------------------------- what sorting keeps

  /** The first piece and the words it takes. */
  lemma FirstPiece(info: FlagInfo, words: seq<string>)
    requires words != []
    ensures var n := if words[0] == "--" then |words| else if TakesNext(info, words[0]) && |words| > 1 then 2 else 1;
      && Pieces(info, words) != [] && Pieces(info, words)[0].Words() == words[..n]
      && Pieces(info, words)[1..] == Pieces(info, words[n..])
  {
    hide TakesNext, StandsAlone;
    assert words[|words|..] == [] && words[..|words|] == words;
    if |words| == 1 { assert words[1..] == []; }
  }

  /** Nothing is lost in the grouping. */
  lemma {:induction false} PiecesFlatten(info: FlagInfo, words: seq<string>)
    ensures Flatten(Pieces(info, words)) == words
  {
    if words != [] {
      hide *;
      FirstPiece(info, words);
      var n := if words[0] == "--" then |words| else if TakesNext(info, words[0]) && |words| > 1 then 2 else 1;
      PiecesFlatten(info, words[n..]);
      FlattenHead(Pieces(info, words));
      assert words == words[..n] + words[n..];
    }
  }

  lemma {:induction false} SelectMultiset(ps: seq<Piece>)
    ensures multiset(Flatten(ps)) == multiset(Flatten(Select(ps, true))) + multiset(Flatten(Select(ps, false)))
  {
    if ps != [] {
      SelectMultiset(ps[1..]);
      assert ([ps[0]] + Select(ps[1..], ps[0].Flag?))[1..] == Select(ps[1..], ps[0].Flag?);
    }
  }

  /** Where the pieces of one kind stood. */
  function Positions(ps: seq<Piece>, flags: bool): seq<nat> {
    if ps == [] then []
    else if ps[|ps| - 1].Flag? == flags then Positions(ps[..|ps| - 1], flags) + [|ps| - 1]
    else Positions(ps[..|ps| - 1], flags)
  }

  /** chosen are exactly the pieces of one kind, in the order of their positions. */
  ghost predicate InOrder(ps: seq<Piece>, flags: bool, at: seq<nat>, chosen: seq<Piece>) {
    && |at| == |chosen|
    && (forall k | 0 <= k < |at| :: at[k] < |ps| && ps[at[k]] == chosen[k] && chosen[k].Flag? == flags)
    && (forall k, l | 0 <= k < l < |at| :: at[k] < at[l])
    && (forall i | 0 <= i < |ps| && ps[i].Flag? == flags :: i in at)
  }

  lemma InOrderTake(ps: seq<Piece>, p: Piece, flags: bool, at: seq<nat>, chosen: seq<Piece>)
    requires InOrder(ps, flags, at, chosen) && p.Flag? == flags
    ensures InOrder(ps + [p], flags, at + [|ps|], chosen + [p])
  {
    var more := at + [|ps|];
    forall i | 0 <= i < |ps + [p]| && (ps + [p])[i].Flag? == flags ensures i in more {
      if i == |ps| { assert more[|at|] == i; }
    }
  }

  lemma InOrderSkip(ps: seq<Piece>, p: Piece, flags: bool, at: seq<nat>, chosen: seq<Piece>)
    requires InOrder(ps, flags, at, chosen) && p.Flag? != flags
    ensures InOrder(ps + [p], flags, at, chosen)
  {
  }

  /** Selecting takes every piece of the kind and keeps their order. */
  lemma {:induction false} SelectKeepsOrder(ps: seq<Piece>, flags: bool)
    ensures InOrder(ps, flags, Positions(ps, flags), Select(ps, flags))
  {
    hide InOrder, Select;
    if ps == [] {
      NothingInOrder(flags);
    } else {
      var front, last := ps[..|ps| - 1], ps[|ps| - 1];
      SelectKeepsOrder(front, flags);
      SelectSnoc(front, last);
      assert front + [last] == ps;
      if last.Flag? == flags {
        InOrderTake(front, last, flags, Positions(front, flags), Select(front, flags));
      } else {
        InOrderSkip(front, last, flags, Positions(front, flags), Select(front, flags));
      }
    }
  }

  lemma NothingInOrder(flags: bool)
    ensures InOrder([], flags, [], Select([], flags))
  {
  }

  /** The result is a permutation of the input. */
  lemma SortedPermutes(info: FlagInfo, words: seq<string>)
    ensures multiset(Sorted(info, words)) == multiset(words) && |Sorted(info, words)| == |words|
  {
    PiecesFlatten(info, words);
    SelectMultiset(Pieces(info, words));
    assert |multiset(Sorted(info, words))| == |multiset(words)|;
  }

  // ---------------------------------------------------------------- sorting twice

  predicate ClosedFlag(info: FlagInfo, p: Piece) {
    && p.Flag? && p.words != [] && p.words[0] != "--"
    && if |p.words| == 1 then StandsAlone(info, p.words[0]) else |p.words| == 2 && TakesNext(info, p.words[0])
  }

  /** A value flag that ended the line. */
  predicate Dangling(info: FlagInfo, p: Piece) {
    p.Flag? && |p.words| == 1 && p.words[0] != "--" && TakesNext(info, p.words[0])
  }

  predicate Plain(info: FlagInfo, p: Piece) {
    p.Positional? && p.word != "--" && !TakesNext(info, p.word) && !StandsAlone(info, p.word)
  }

  predicate Tail(p: Piece) {
    p.Rest? && p.tail != [] && p.tail[0] == "--"
  }

  /** Pieces that grouping their words gives back: only the last one may be open-ended. */
  predicate Parsable(info: FlagInfo, ps: seq<Piece>) {
    ps == [] || (
      && Parsable(info, ps[1..])
      && (ClosedFlag(info, ps[0]) || Plain(info, ps[0]) || (|ps| == 1 && (Dangling(info, ps[0]) || Tail(ps[0])))))
  }

  lemma {:induction false} PiecesParsable(info: FlagInfo, words: seq<string>)
    ensures Parsable(info, Pieces(info, words))
  {
    hide TakesNext, StandsAlone;
    if words != [] && words[0] != "--" && !(TakesNext(info, words[0]) && |words| == 1) {
      var n := if TakesNext(info, words[0]) then 2 else 1;
      PiecesParsable(info, words[n..]);
      assert Pieces(info, words)[1..] == Pieces(info, words[n..]);
      NotBoth(info, words[0]);
    } else if words != [] {
      assert Pieces(info, words)[1..] == [];
    }
  }

  lemma NotBoth(info: FlagInfo, w: string)
    ensures !(TakesNext(info, w) && StandsAlone(info, w))
  {
  }

  lemma {:induction false} ParsableRoundTrip(info: FlagInfo, ps: seq<Piece>)
    requires Parsable(info, ps)
    ensures Pieces(info, Flatten(ps)) == ps
  {
    hide TakesNext, StandsAlone;
    if ps != [] {
      var words, rest := Flatten(ps), Flatten(ps[1..]);
      ParsableRoundTrip(info, ps[1..]);
      NotBoth(info, words[0]);
      assert words[|ps[0].Words()|..] == rest && words[..|ps[0].Words()|] == ps[0].Words();
      if |ps| == 1 { assert ps[1..] == [] && rest == [] && words == ps[0].Words() && ps == [ps[0]]; }
    }
  }

  ghost predicate ClosedFlags(info: FlagInfo, ps: seq<Piece>) {
    forall i | 0 <= i < |ps| :: ClosedFlag(info, ps[i])
  }

  /** No flags, and only the last piece may be the tail. */
  ghost predicate Others(info: FlagInfo, ps: seq<Piece>) {
    forall i | 0 <= i < |ps| :: Plain(info, ps[i]) || (i == |ps| - 1 && Tail(ps[i]))
  }

  lemma {:induction false} OthersParsable(info: FlagInfo, ps: seq<Piece>)
    requires Others(info, ps)
    ensures Parsable(info, ps) && Select(ps, true) == [] && Select(ps, false) == ps
  {
    hide Plain;
    if ps != [] {
      assert forall i | 0 <= i < |ps| - 1 :: ps[1..][i] == ps[i + 1];
      OthersParsable(info, ps[1..]);
      assert Plain(info, ps[0]) ==> !ps[0].Flag? by { PlainKind(info, ps[0]); }
    }
  }

  lemma PlainKind(info: FlagInfo, p: Piece)
    ensures Plain(info, p) ==> p.Positional?
    ensures ClosedFlag(info, p) || Dangling(info, p) ==> p.Flag?
  {
  }

  lemma FrontStep(info: FlagInfo, p: Piece, fs: seq<Piece>, os: seq<Piece>)
    requires ClosedFlag(info, p) && Parsable(info, fs + os)
    ensures Parsable(info, [p] + fs + os)
    ensures forall f :: Select([p] + fs + os, f) == if f then [p] + Select(fs + os, f) else Select(fs + os, f)
  {
    hide ClosedFlag, Plain, Dangling;
    PlainKind(info, p);
    assert ([p] + fs + os)[1..] == fs + os;
  }

  /** Closed flags in front of the others are grouped and sorted as they stand. */
  lemma {:induction false} FrontedIsSorted(info: FlagInfo, fs: seq<Piece>, os: seq<Piece>)
    requires ClosedFlags(info, fs) && Others(info, os)
    ensures Parsable(info, fs + os) && Select(fs + os, true) == fs && Select(fs + os, false) == os
  {
    hide ClosedFlag, Others, Parsable, Select;
    OthersParsable(info, os);
    if fs == [] {
      assert fs + os == os;
    } else {
      assert ClosedFlag(info, fs[0]);
      assert forall i | 0 <= i < |fs| - 1 :: fs[1..][i] == fs[i + 1];
      FrontedIsSorted(info, fs[1..], os);
      FrontStep(info, fs[0], fs[1..], os);
      assert [fs[0]] + fs[1..] == fs;
    }
  }

  /** What the two halves of a grouped line look like. */
  lemma {:induction false} Halves(info: FlagInfo, ps: seq<Piece>)
    requires Parsable(info, ps)
    ensures var fs, os := Select(ps, true), Select(ps, false);
      && Others(info, os)
      && (ClosedFlags(info, fs)
          || (fs != [] && ClosedFlags(info, fs[..|fs| - 1]) && Dangling(info, fs[|fs| - 1])
              && forall i | 0 <= i < |os| :: Plain(info, os[i])))
  {
    hide ClosedFlag, Dangling, Plain;
    if ps != [] {
      Halves(info, ps[1..]);
      PlainKind(info, ps[0]);
      var fs, os := Select(ps[1..], true), Select(ps[1..], false);
      if |ps| == 1 { assert ps[1..] == []; }
      if fs != [] { assert ([ps[0]] + fs)[..|fs|] == [ps[0]] + fs[..|fs| - 1]; }
    }
  }

  /** No flag comes after another piece. */
  predicate FlagsFirst(ps: seq<Piece>) {
    forall i, j | 0 <= i < j < |ps| && ps[j].Flag? :: ps[i].Flag?
  }

  lemma FrontedFlagsFirst(info: FlagInfo, fs: seq<Piece>, os: seq<Piece>)
    requires (forall i | 0 <= i < |fs| :: fs[i].Flag?) && Others(info, os)
    ensures FlagsFirst(fs + os)
  {
  }

  lemma ClosedAreFlags(info: FlagInfo, fs: seq<Piece>)
    requires ClosedFlags(info, fs)
    ensures forall i | 0 <= i < |fs| :: fs[i].Flag?
  {
  }

  lemma SortFronted(info: FlagInfo, fs: seq<Piece>, os: seq<Piece>)
    requires ClosedFlags(info, fs) && Others(info, os)
    ensures Sorted(info, Flatten(fs) + Flatten(os)) == Flatten(fs) + Flatten(os)
    ensures FlagsFirst(Pieces(info, Flatten(fs) + Flatten(os)))
  {
    hide ClosedFlags, Others, Parsable, FlagsFirst;
    FrontedIsSorted(info, fs, os);
    FlattenAppend(fs, os);
    ParsableRoundTrip(info, fs + os);
    ClosedAreFlags(info, fs);
    FrontedFlagsFirst(info, fs, os);
  }

  lemma ConcatTwice<T>(a: seq<T>, b: seq<T>, c: seq<T>)
    ensures a + (b + c) == a + b + c
  {
  }

  lemma SplitOff<T>(a: seq<T>, b: seq<T>)
    requires a != []
    ensures a + b != [] && (a + b)[0] == a[0] && (a + b)[1..] == a[1..] + b
  {
  }

  lemma {:induction false} FlattenAppend(a: seq<Piece>, b: seq<Piece>)
    ensures Flatten(a + b) == Flatten(a) + Flatten(b)
  {
    if a == [] {
      assert a + b == b;
    } else {
      hide *;
      SplitOff(a, b);
      FlattenHead(a + b);
      FlattenHead(a);
      FlattenAppend(a[1..], b);
      ConcatTwice(a[0].Words(), Flatten(a[1..]), Flatten(b));
    }
  }

  /** Sorting a second time changes nothing, even when a value flag without its
      value came last and now takes the first positional word for it. */
  lemma SortedTwice(info: FlagInfo, words: seq<string>)
    ensures Sorted(info, Sorted(info, words)) == Sorted(info, words)
    ensures FlagsFirst(Pieces(info, Sorted(info, words)))
  {
    hide ClosedFlag, Plain, Select, Pieces, Flatten, FlagsFirst;
    var ps := Pieces(info, words);
    PiecesParsable(info, words);
    Halves(info, ps);
    var fs, os := Select(ps, true), Select(ps, false);
    if ClosedFlags(info, fs) {
      SortFronted(info, fs, os);
    } else {
      DanglingCase(info, fs[..|fs| - 1], fs[|fs| - 1], os);
      assert fs[..|fs| - 1] + [fs[|fs| - 1]] == fs;
    }
  }

  function Joined(d: Piece, o: Piece): Piece
    requires d.Flag? && d.words != [] && o.Positional?
  {
    Flag([d.words[0], o.word])
  }

  lemma FlattenSnoc(ps: seq<Piece>, p: Piece)
    ensures Flatten(ps + [p]) == Flatten(ps) + p.Words()
  {
    FlattenAppend(ps, [p]);
    FlattenOne(p);
  }

  lemma FlattenHead(ps: seq<Piece>)
    requires ps != []
    ensures Flatten(ps) == ps[0].Words() + Flatten(ps[1..])
  {
  }

  lemma Regroup(front: seq<string>, f: string, o: string, tail: seq<string>)
    ensures front + [f] + ([o] + tail) == front + [f, o] + tail
  {
  }

  lemma JoinedWords(info: FlagInfo, fs: seq<Piece>, d: Piece, os: seq<Piece>)
    requires Dangling(info, d) && os != [] && os[0].Positional?
    ensures Flatten(fs + [d]) + Flatten(os) == Flatten(fs + [Joined(d, os[0])]) + Flatten(os[1..])
  {
    assert d.words == [d.words[0]];
    var joined := Joined(d, os[0]);
    assert d.Words() == [d.words[0]] && joined.Words() == [d.words[0], os[0].word] && os[0].Words() == [os[0].word];
    hide *;
    FlattenSnoc(fs, d);
    FlattenSnoc(fs, joined);
    FlattenHead(os);
    Regroup(Flatten(fs), d.words[0], os[0].word, Flatten(os[1..]));
  }

  lemma DanglingCase(info: FlagInfo, fs: seq<Piece>, d: Piece, os: seq<Piece>)
    requires ClosedFlags(info, fs) && Dangling(info, d) && Others(info, os)
    requires forall i | 0 <= i < |os| :: Plain(info, os[i])
    ensures Sorted(info, Flatten(fs + [d]) + Flatten(os)) == Flatten(fs + [d]) + Flatten(os)
    ensures FlagsFirst(Pieces(info, Flatten(fs + [d]) + Flatten(os)))
  {
    hide ClosedFlag, Plain, Pieces, Select, Sorted, Flatten, FlagsFirst;
    if os == [] {
      DanglingLast(info, fs, d);
      FlattenNone();
      assert Flatten(fs + [d]) + [] == Flatten(fs + [d]);
    } else {
      PlainKind(info, os[0]);
      JoinedWords(info, fs, d, os);
      JoinedClosed(info, d, os[0]);
      SortFronted(info, fs + [Joined(d, os[0])], os[1..]);
    }
  }

  lemma FlattenNone()
    ensures Flatten([]) == []
  {
  }

  lemma FlattenOne(p: Piece)
    ensures Flatten([p]) == p.Words()
  {
    assert [p][1..] == [];
  }

  lemma JoinedClosed(info: FlagInfo, d: Piece, p: Piece)
    requires Dangling(info, d) && Plain(info, p)
    ensures ClosedFlag(info, Joined(d, p))
  {
  }

  lemma {:induction false} EndParsable(info: FlagInfo, fs: seq<Piece>, d: Piece)
    requires ClosedFlags(info, fs) && Dangling(info, d)
    ensures Parsable(info, fs + [d]) && Select(fs + [d], true) == fs + [d] && Select(fs + [d], false) == []
  {
    hide ClosedFlag, Dangling, Plain;
    PlainKind(info, d);
    if fs == [] {
      assert fs + [d] == [d] && [d][1..] == [];
    } else {
      assert ClosedFlag(info, fs[0]);
      PlainKind(info, fs[0]);
      assert forall i | 0 <= i < |fs| - 1 :: fs[1..][i] == fs[i + 1];
      EndParsable(info, fs[1..], d);
      assert (fs + [d])[1..] == fs[1..] + [d];
    }
  }

  lemma DanglingLast(info: FlagInfo, fs: seq<Piece>, d: Piece)
    requires ClosedFlags(info, fs) && Dangling(info, d)
    ensures Sorted(info, Flatten(fs + [d])) == Flatten(fs + [d])
    ensures FlagsFirst(Pieces(info, Flatten(fs + [d])))
  {
    ClosedAreFlags(info, fs);
    PlainKind(info, d);
    FrontedFlagsFirst(info, fs + [d], []);
    assert fs + [d] + [] == fs + [d];
    hide ClosedFlags, Dangling, Parsable;
    EndParsable(info, fs, d);
    ParsableRoundTrip(info, fs + [d]);
    assert Flatten([]) == [] && Flatten(fs + [d]) + [] == Flatten(fs + [d]);
  }

  // ---------------------------------------------------------------- the whole command line

  /** Index of the subcommand: the first word from i on that is no flag and no value of one. */
  function SubcommandFrom(info: FlagInfo, args: seq<string>, i: nat): (r: Option<nat>)
    ensures r.Some? ==> i <= r.value < |args| && !Dashed(args[r.value])
    decreases |args| - i
  {
    if i >= |args| then None
    else if !Dashed(args[i]) then Some(i)
    else SubcommandFrom(info, args, if TakesNext(info, args[i]) then i + 2 else i + 1)
  }

  /** The reordered command line. */
  function Reordered(info: FlagInfo, args: seq<string>): seq<string> {
    var sub := SubcommandFrom(info, args, 1);
    if |args| < 3 || sub.None? || sub.value + 1 >= |args| then args
    else args[..sub.value + 1] + Sorted(info, args[sub.value + 1..])
  }

  /** Words after the subcommand do not influence where it is found. */
  lemma {:induction false} SubcommandStable(info: FlagInfo, args: seq<string>, other: seq<string>, i: nat)
    requires SubcommandFrom(info, args, i).Some?
    requires var n := SubcommandFrom(info, args, i).value + 1; n <= |other| && other[..n] == args[..n]
    ensures SubcommandFrom(info, other, i) == SubcommandFrom(info, args, i)
    decreases |args| - i
  {
    hide TakesNext;
    var n := SubcommandFrom(info, args, i).value + 1;
    assert other[..n][i] == args[..n][i];
    if Dashed(args[i]) {
      SubcommandStable(info, args, other, if TakesNext(info, args[i]) then i + 2 else i + 1);
    }
  }

  /** Reordering permutes the words and keeps everything up to the subcommand; doing
      it twice is doing it once. */
  lemma ReorderedKeeps(info: FlagInfo, args: seq<string>)
    ensures multiset(Reordered(info, args)) == multiset(args)
    ensures SubcommandFrom(info, args, 1).Some? ==>
      var n := SubcommandFrom(info, args, 1).value + 1; n <= |Reordered(info, args)| && Reordered(info, args)[..n] == args[..n]
    ensures Reordered(info, Reordered(info, args)) == Reordered(info, args)
  {
    hide Sorted, Dashed, TakesNext;
    var sub := SubcommandFrom(info, args, 1);
    if |args| >= 3 && sub.Some? && sub.value + 1 < |args| {
      var n := sub.value + 1;
      var front, rest := args[..n], args[n..];
      assert args == front + rest;
      SortedPermutes(info, rest);
      SortedTwice(info, rest);
      var result := front + Sorted(info, rest);
      assert result[..n] == front && result[n..] == Sorted(info, rest);
      SubcommandStable(info, args, result, 1);
    }
  }

  predicate EndsIn(words: seq<string>, tail: seq<string>) {
    |tail| <= |words| && words[|words| - |tail|..] == tail
  }

  /** Everything from "--" on stays at the end, as it is. */
  lemma {:induction false} TailStays(info: FlagInfo, words: seq<string>)
    ensures var ps := Pieces(info, words);
      ps != [] && ps[|ps| - 1].Rest? ==>
        var tail := ps[|ps| - 1].tail;
        tail != [] && tail[0] == "--" && EndsIn(words, tail) && EndsIn(Sorted(info, words), tail)
  {
    hide *;
    var ps := Pieces(info, words);
    if ps != [] && ps[|ps| - 1].Rest? {
      var front, last := ps[..|ps| - 1], ps[|ps| - 1];
      assert ps == front + [last];
      PiecesFlatten(info, words);
      PiecesParsable(info, words);
      LastTail(info, ps);
      SelectSnoc(front, last);
      FlattenSnoc(front, last);
      FlattenSnoc(Select(front, false), last);
      SortedIs(info, words);
      WordsOfRest(last);
      EndsWith(Flatten(front), last.tail);
      Three(Flatten(Select(ps, true)), Flatten(Select(front, false)), last.tail);
    }
  }

  lemma SortedIs(info: FlagInfo, words: seq<string>)
    ensures Sorted(info, words) == Flatten(Select(Pieces(info, words), true)) + Flatten(Select(Pieces(info, words), false))
  {
  }

  lemma WordsOfRest(p: Piece)
    ensures p.Rest? ==> p.Words() == p.tail
  {
  }

  lemma EndsWith(a: seq<string>, b: seq<string>)
    ensures EndsIn(a + b, b)
  {
  }

  lemma Three(a: seq<string>, b: seq<string>, c: seq<string>)
    ensures EndsIn(a + (b + c), c)
  {
  }

  lemma {:induction false} LastTail(info: FlagInfo, ps: seq<Piece>)
    requires Parsable(info, ps) && ps != [] && ps[|ps| - 1].Rest?
    ensures |ps[|ps| - 1].tail| > 0 && ps[|ps| - 1].tail[0] == "--"
  {
    hide ClosedFlag, Dangling, Plain;
    PlainKind(info, ps[0]);
    if |ps| > 1 { LastTail(info, ps[1..]); }
  }

  lemma {:induction false} SelectSnoc(ps: seq<Piece>, p: Piece)
    ensures forall f :: Select(ps + [p], f) == if p.Flag? == f then Select(ps, f) + [p] else Select(ps, f)
  {
    if ps == [] {
      assert ps + [p] == [p] && [p][1..] == [];
    } else {
      SelectSnoc(ps[1..], p);
      assert (ps + [p])[1..] == ps[1..] + [p];
    }
  }

  // ---------------------------------------------------------------- how a line is read

  /** The word is this name behind one or more dashes, alone or with "=" and more after it. */
  ghost predicate Names(arg: string, name: string) {
    exists dashes: string, rest: string :: NamesWith(arg, dashes, name, rest)
  }

  ghost predicate NamesWith(arg: string, dashes: string, name: string, rest: string) {
    && arg == dashes + name + rest
    && dashes != "" && (forall i | 0 <= i < |dashes| :: dashes[i] == '-')
    && '=' !in name && (name != "" ==> name[0] != '-')
    && (rest == "" || rest[0] == '=')
  }

  lemma {:induction false} CutName(name: string, rest: string)
    requires '=' !in name && (rest == "" || rest[0] == '=')
    ensures CutAtEquals(name + rest) == name
  {
    if name == "" {
      assert name + rest == rest;
    } else {
      assert (name + rest)[1..] == name[1..] + rest && (name + rest)[0] == name[0] != '=';
      CutName(name[1..], rest);
      assert [name[0]] + name[1..] == name;
    }
  }

  /** The bare name is what stands between the dashes in front and an equals sign. */
  lemma {:induction false} StripsName(dashes: string, name: string, rest: string)
    requires forall i | 0 <= i < |dashes| :: dashes[i] == '-'
    requires '=' !in name && (name != "" ==> name[0] != '-') && (rest == "" || rest[0] == '=')
    ensures StripFlagName(dashes + name + rest) == name
  {
    if dashes == "" {
      assert dashes + name + rest == name + rest;
      CutName(name, rest);
      assert TrimDashes(name + rest) == name + rest;
    } else {
      StripsName(dashes[1..], name, rest);
      assert (dashes + name + rest)[1..] == dashes[1..] + name + rest;
    }
  }

  lemma {:induction false} CutRest(s: string) returns (rest: string)
    ensures s == CutAtEquals(s) + rest && (rest == "" || rest[0] == '=')
  {
    if s == "" || s[0] == '=' {
      rest := s;
    } else {
      rest := CutRest(s[1..]);
      assert s == [s[0]] + s[1..];
    }
  }

  lemma {:induction false} TrimmedDashes(s: string) returns (dashes: string)
    ensures s == dashes + TrimDashes(s) && forall i | 0 <= i < |dashes| :: dashes[i] == '-'
    ensures Dashed(s) ==> dashes != ""
  {
    if s != "" && s[0] == '-' {
      dashes := TrimmedDashes(s[1..]);
      dashes := ['-'] + dashes;
      assert s == [s[0]] + s[1..];
    } else {
      dashes := "";
    }
  }

  lemma NamesIff(arg: string, name: string)
    ensures Names(arg, name) <==> Dashed(arg) && StripFlagName(arg) == name
  {
    if Names(arg, name) {
      var dashes: string, rest: string :| NamesWith(arg, dashes, name, rest);
      StripsName(dashes, name, rest);
      assert arg[0] == dashes[0];
    }
    if Dashed(arg) && StripFlagName(arg) == name {
      var dashes := TrimmedDashes(arg);
      var rest := CutRest(TrimDashes(arg));
      assert arg == dashes + name + rest;
      assert NamesWith(arg, dashes, name, rest);
    }
  }

  /** A flag the application knows. */
  ghost predicate KnownFlag(info: FlagInfo, arg: string) {
    exists name :: Names(arg, name) && (name in info.valueFlags || name in info.boolFlags)
  }

  /** A flag that takes the next word for its value. */
  ghost predicate OpenFlag(info: FlagInfo, arg: string) {
    '=' !in arg && exists name :: Names(arg, name) && name in info.valueFlags
  }

  lemma KindsOf(info: FlagInfo, arg: string)
    ensures OpenFlag(info, arg) <==> TakesNext(info, arg)
    ensures KnownFlag(info, arg) <==> TakesNext(info, arg) || StandsAlone(info, arg)
  {
    hide Names, StripFlagName;
    forall name ensures Names(arg, name) <==> Dashed(arg) && StripFlagName(arg) == name { NamesIff(arg, name); }
  }

  datatype Role = FlagWord | ValueWord | OtherWord

  /** The role of word i: a value is what follows a flag that takes one; a known flag is
      one before any "--" that is not a value itself. */
  ghost predicate ReadAt(info: FlagInfo, words: seq<string>, roles: seq<Role>, i: nat)
    requires i < |words| == |roles|
  {
    && (roles[i] == ValueWord <==> i > 0 && roles[i - 1] == FlagWord && OpenFlag(info, words[i - 1]))
    && (roles[i] == FlagWord <==>
          && roles[i] != ValueWord && KnownFlag(info, words[i])
          && forall j | 0 <= j <= i && words[j] == "--" :: roles[j] == ValueWord)
  }

  /** The roles of all words after the subcommand. */
  ghost predicate Reads(info: FlagInfo, words: seq<string>, roles: seq<Role>) {
    |roles| == |words| && forall i | 0 <= i < |words| :: ReadAt(info, words, roles, i)
  }

  /** Every line is read in one way only. */
  lemma {:induction false} ReadOnce(info: FlagInfo, words: seq<string>, r: seq<Role>, q: seq<Role>, n: nat)
    requires Reads(info, words, r) && Reads(info, words, q) && n <= |words|
    ensures forall j | 0 <= j < n :: r[j] == q[j]
  {
    hide OpenFlag, KnownFlag;
    if n > 0 {
      ReadOnce(info, words, r, q, n - 1);
      assert ReadAt(info, words, r, n - 1) && ReadAt(info, words, q, n - 1);
      assert n > 1 ==> r[n - 1 - 1] == q[n - 1 - 1];
      assert r[n - 1] == ValueWord <==> q[n - 1] == ValueWord;
      assert r[n - 1] == FlagWord <==> q[n - 1] == FlagWord;
    }
  }

  /** The roles, along the pieces. */
  function RolesOf(info: FlagInfo, words: seq<string>): (roles: seq<Role>)
    ensures |roles| == |words|
  {
    if words == [] then []
    else if words[0] == "--" then seq(|words|, i => OtherWord)
    else if TakesNext(info, words[0]) then
      if |words| == 1 then [FlagWord] else [FlagWord, ValueWord] + RolesOf(info, words[2..])
    else if StandsAlone(info, words[0]) then [FlagWord] + RolesOf(info, words[1..])
    else [OtherWord] + RolesOf(info, words[1..])
  }

  /** A reading of the rest of a line continues a reading of its first words. */
  lemma ReadsOn(info: FlagInfo, head: seq<string>, front: seq<Role>, rest: seq<string>, back: seq<Role>)
    requires Reads(info, head, front) && Reads(info, rest, back)
    requires forall j | 0 <= j < |head| && head[j] == "--" :: front[j] == ValueWord
    requires head != [] ==> !(front[|head| - 1] == FlagWord && OpenFlag(info, head[|head| - 1]))
    ensures Reads(info, head + rest, front + back)
  {
    hide OpenFlag, KnownFlag, ReadAt;
    var words, roles := head + rest, front + back;
    forall i | 0 <= i < |words| ensures ReadAt(info, words, roles, i) {
      if i < |head| { ReadFront(info, head, front, rest, back, i); } else { ReadBack(info, head, front, rest, back, i - |head|); }
    }
  }

  lemma ReadFront(info: FlagInfo, head: seq<string>, front: seq<Role>, rest: seq<string>, back: seq<Role>, i: nat)
    requires Reads(info, head, front) && |back| == |rest| && i < |head|
    ensures ReadAt(info, head + rest, front + back, i)
  {
    hide OpenFlag, KnownFlag;
    assert ReadAt(info, head, front, i);
    var words, roles := head + rest, front + back;
    assert words[i] == head[i] && roles[i] == front[i];
    if i > 0 { assert words[i - 1] == head[i - 1] && roles[i - 1] == front[i - 1]; }
    assert forall j | 0 <= j <= i :: words[j] == head[j] && roles[j] == front[j];
    assert (forall j | 0 <= j <= i && words[j] == "--" :: roles[j] == ValueWord)
      <==> forall j | 0 <= j <= i && head[j] == "--" :: front[j] == ValueWord;
  }

  lemma ReadBack(info: FlagInfo, head: seq<string>, front: seq<Role>, rest: seq<string>, back: seq<Role>, i: nat)
    requires |front| == |head| && Reads(info, rest, back) && i < |rest|
    requires forall j | 0 <= j < |head| && head[j] == "--" :: front[j] == ValueWord
    requires head != [] ==> !(front[|head| - 1] == FlagWord && OpenFlag(info, head[|head| - 1]))
    ensures ReadAt(info, head + rest, front + back, |head| + i)
  {
    hide OpenFlag, KnownFlag;
    assert ReadAt(info, rest, back, i);
    var words, roles, m := head + rest, front + back, |head|;
    assert words[m + i] == rest[i] && roles[m + i] == back[i];
    if i > 0 { assert words[m + i - 1] == rest[i - 1] && roles[m + i - 1] == back[i - 1]; }
    if forall j | 0 <= j <= m + i && words[j] == "--" :: roles[j] == ValueWord {
      forall j | 0 <= j <= i && rest[j] == "--" ensures back[j] == ValueWord { assert words[m + j] == rest[j]; }
    }
    if forall j | 0 <= j <= i && rest[j] == "--" :: back[j] == ValueWord {
      forall j | 0 <= j <= m + i && words[j] == "--" ensures roles[j] == ValueWord {
        if j >= m { assert words[j] == rest[j - m]; }
      }
    }
  }

  lemma {:induction false} RolesRead(info: FlagInfo, words: seq<string>)
    ensures Reads(info, words, RolesOf(info, words))
  {
    hide OpenFlag, KnownFlag, TakesNext, StandsAlone;
    if words != [] {
      KindsOf(info, words[0]);
      NotBoth(info, words[0]);
      if words[0] == "--" || (TakesNext(info, words[0]) && |words| == 1) {
      } else if TakesNext(info, words[0]) {
        RolesRead(info, words[2..]);
        assert words[..2] == [words[0], words[1]] && words[..2] + words[2..] == words;
        ReadsOn(info, words[..2], [FlagWord, ValueWord], words[2..], RolesOf(info, words[2..]));
      } else {
        RolesRead(info, words[1..]);
        var r := if StandsAlone(info, words[0]) then FlagWord else OtherWord;
        assert words[..1] == [words[0]] && words[..1] + words[1..] == words;
        ReadsOn(info, words[..1], [r], words[1..], RolesOf(info, words[1..]));
      }
    }
  }

  // ---------------------------------------------------------------- where the words go

  /** The result has the words in the order of these positions: first the flags with
      their values, then the other words, each group in its old order. */
  ghost predicate FlagsInFront(words: seq<string>, result: seq<string>, roles: seq<Role>, p: seq<nat>) {
    && |result| == |words| == |roles| == |p|
    && (forall k | 0 <= k < |p| :: p[k] < |words| && result[k] == words[p[k]])
    && (forall i | 0 <= i < |words| :: i in p)
    && (forall k, l | 0 <= k < l < |p| ::
          if roles[p[k]] == OtherWord then roles[p[l]] == OtherWord && p[k] < p[l]
          else roles[p[l]] == OtherWord || p[k] < p[l])
  }

  /** By any reading of the words, the result has the flags in front. */
  ghost predicate InFront(info: FlagInfo, words: seq<string>, result: seq<string>) {
    forall roles | Reads(info, words, roles) :: exists p :: FlagsInFront(words, result, roles, p)
  }

  /** Where the words of one group stand, counted from off on. */
  function Places(roles: seq<Role>, flags: bool, off: nat): seq<nat> {
    if roles == [] then []
    else (if (roles[0] != OtherWord) == flags then [off] else []) + Places(roles[1..], flags, off + 1)
  }

  function At(words: seq<string>, p: seq<nat>): seq<string>
    requires forall k | 0 <= k < |p| :: p[k] < |words|
  {
    seq(|p|, k requires 0 <= k < |p| => words[p[k]])
  }

  lemma {:induction false} PlacesRange(roles: seq<Role>, flags: bool, off: nat)
    ensures forall x | x in Places(roles, flags, off) ::
      off <= x < off + |roles| && (roles[x - off] != OtherWord) == flags
  {
    if roles != [] {
      PlacesRange(roles[1..], flags, off + 1);
      var rest := Places(roles[1..], flags, off + 1);
      forall x | x in Places(roles, flags, off) ensures off <= x < off + |roles| && (roles[x - off] != OtherWord) == flags {
        if x in rest { assert roles[1..][x - (off + 1)] == roles[x - off]; }
      }
    }
  }

  predicate Rises(p: seq<nat>) {
    forall k, l | 0 <= k < l < |p| :: p[k] < p[l]
  }

  lemma RisesOn(x: nat, p: seq<nat>)
    requires Rises(p) && forall y | y in p :: x < y
    ensures Rises([x] + p)
  {
    var q := [x] + p;
    forall k, l | 0 <= k < l < |q| ensures q[k] < q[l] {
      assert q[l] == p[l - 1] && p[l - 1] in p;
      if k > 0 { assert q[k] == p[k - 1]; }
    }
  }

  lemma {:induction false} PlacesRise(roles: seq<Role>, flags: bool, off: nat)
    ensures Rises(Places(roles, flags, off))
  {
    if roles != [] {
      PlacesRise(roles[1..], flags, off + 1);
      PlacesRange(roles[1..], flags, off + 1);
      hide Rises;
      RisesOn(off, Places(roles[1..], flags, off + 1));
      assert [] + Places(roles[1..], flags, off + 1) == Places(roles[1..], flags, off + 1);
    }
  }

  lemma {:induction false} PlacesAll(roles: seq<Role>, flags: bool, off: nat, i: nat)
    requires i < |roles| && (roles[i] != OtherWord) == flags
    ensures off + i in Places(roles, flags, off)
  {
    if i > 0 {
      PlacesAll(roles[1..], flags, off + 1, i - 1);
    }
  }

  lemma {:induction false} PlacesCount(roles: seq<Role>, off: nat)
    ensures |Places(roles, true, off)| + |Places(roles, false, off)| == |roles|
  {
    if roles != [] { PlacesCount(roles[1..], off + 1); }
  }

  lemma PlacesHead(roles: seq<Role>, flags: bool, off: nat)
    requires roles != []
    ensures Places(roles, flags, off)
      == (if (roles[0] != OtherWord) == flags then [off] else []) + Places(roles[1..], flags, off + 1)
  {
  }

  lemma {:induction false} PlacesConcat(a: seq<Role>, b: seq<Role>, flags: bool, off: nat)
    ensures Places(a + b, flags, off) == Places(a, flags, off) + Places(b, flags, off + |a|)
  {
    if a == [] {
      assert a + b == b;
    } else {
      hide Places;
      PlacesHead(a, flags, off);
      PlacesHead(a + b, flags, off);
      SplitOff(a, b);
      PlacesConcat(a[1..], b, flags, off + 1);
      var head := if (a[0] != OtherWord) == flags then [off] else [];
      ConcatTwice(head, Places(a[1..], flags, off + 1), Places(b, flags, off + |a|));
    }
  }

  lemma {:induction false} PlacesSame(roles: seq<Role>, flags: bool, off: nat)
    requires forall i | 0 <= i < |roles| :: (roles[i] != OtherWord) == flags
    ensures |Places(roles, flags, off)| == |roles| && forall k | 0 <= k < |roles| :: Places(roles, flags, off)[k] == off + k
    ensures Places(roles, !flags, off) == []
  {
    if roles != [] { PlacesSame(roles[1..], flags, off + 1); }
  }

  /** The words of one group, in their order, are what the split gives. */
  lemma {:induction false} HalfPlaces(info: FlagInfo, all: seq<string>, off: nat, flags: bool)
    requires off <= |all|
    ensures var p := Places(RolesOf(info, all[off..]), flags, off);
      && (forall k | 0 <= k < |p| :: p[k] < |all|)
      && At(all, p) == Half(info, all[off..], flags)
    decreases |all| - off
  {
    var words := all[off..];
    var roles := RolesOf(info, words);
    PlacesInside(roles, flags, off, |all|);
    if words == [] {
      HalfNone(info);
    } else {
      hide *;
      SplitStep(info, words);
      var n := if words[0] == "--" then |words| else if TakesNext(info, words[0]) && |words| > 1 then 2 else 1;
      var flag := words[0] != "--" && (TakesNext(info, words[0]) || StandsAlone(info, words[0]));
      HeadRoles(info, words);
      assert words[n..] == all[off + n..];
      HalfPlaces(info, all, off + n, flags);
      HalfStep(all, off, n, roles, flag, flags, Half(info, words[n..], flags));
    }
  }

  /** One more piece in front. */
  lemma HalfStep(all: seq<string>, off: nat, n: nat, roles: seq<Role>, flag: bool, flags: bool, words: seq<string>)
    requires off + |roles| == |all| && n <= |roles| && forall i | 0 <= i < n :: (roles[i] != OtherWord) == flag
    requires var r := Places(roles[n..], flags, off + n); (forall k | 0 <= k < |r| :: r[k] < |all|) && At(all, r) == words
    ensures var p := Places(roles, flags, off);
      && (forall k | 0 <= k < |p| :: p[k] < |all|)
      && At(all, p) == (if flag == flags then all[off..][..n] else []) + words
  {
    hide *;
    var head, rest := roles[..n], roles[n..];
    assert head + rest == roles;
    PlacesInside(roles, flags, off, |all|);
    PlacesInside(head, flags, off, |all|);
    PlacesConcat(head, rest, flags, off);
    HeadWords(all, off, n, head, flag, flags);
    AtConcat(all, Places(head, flags, off), Places(rest, flags, off + n));
  }

  lemma PlacesInside(roles: seq<Role>, flags: bool, off: nat, top: nat)
    requires off + |roles| <= top
    ensures forall k | 0 <= k < |Places(roles, flags, off)| :: Places(roles, flags, off)[k] < top
  {
    PlacesRange(roles, flags, off);
    hide Places;
    forall k | 0 <= k < |Places(roles, flags, off)| ensures Places(roles, flags, off)[k] < top {
      assert Places(roles, flags, off)[k] in Places(roles, flags, off);
    }
  }

  lemma AtConcat(words: seq<string>, p: seq<nat>, q: seq<nat>)
    requires forall k | 0 <= k < |p| :: p[k] < |words|
    requires forall k | 0 <= k < |q| :: q[k] < |words|
    ensures forall k | 0 <= k < |p + q| :: (p + q)[k] < |words|
    ensures At(words, p + q) == At(words, p) + At(words, q)
  {
  }

  /** Words of one kind stand where they stand. */
  lemma HeadWords(all: seq<string>, off: nat, n: nat, head: seq<Role>, flag: bool, flags: bool)
    requires off + n <= |all| && |head| == n && forall i | 0 <= i < n :: (head[i] != OtherWord) == flag
    requires forall k | 0 <= k < |Places(head, flags, off)| :: Places(head, flags, off)[k] < |all|
    ensures At(all, Places(head, flags, off)) == if flag == flags then all[off..][..n] else []
  {
    PlacesSame(head, flag, off);
    hide Places;
  }

  lemma HeadRoles(info: FlagInfo, words: seq<string>)
    requires words != []
    ensures var n := if words[0] == "--" then |words| else if TakesNext(info, words[0]) && |words| > 1 then 2 else 1;
      var flag := words[0] != "--" && (TakesNext(info, words[0]) || StandsAlone(info, words[0]));
      && n <= |words| && RolesOf(info, words)[n..] == RolesOf(info, words[n..])
      && forall i | 0 <= i < n :: (RolesOf(info, words)[i] != OtherWord) == flag
  {
    hide TakesNext, StandsAlone;
    NotBoth(info, words[0]);
  }

  /** The places of the flags before the places of the others. */
  function AllPlaces(roles: seq<Role>): seq<nat> {
    Places(roles, true, 0) + Places(roles, false, 0)
  }

  lemma AllPlacesComplete(roles: seq<Role>)
    ensures |AllPlaces(roles)| == |roles|
    ensures forall k | 0 <= k < |AllPlaces(roles)| :: AllPlaces(roles)[k] < |roles|
    ensures forall i: nat | i < |roles| :: i in AllPlaces(roles)
  {
    PlacesCount(roles, 0);
    PlacesInside(roles, true, 0, |roles|);
    PlacesInside(roles, false, 0, |roles|);
    hide Places;
    forall i: nat | i < |roles| ensures i in AllPlaces(roles) {
      PlacesAll(roles, roles[i] != OtherWord, 0, i);
    }
  }

  lemma AllPlacesOrdered(roles: seq<Role>, k: nat, l: nat)
    requires k < l < |AllPlaces(roles)|
    requires forall n | 0 <= n < |AllPlaces(roles)| :: AllPlaces(roles)[n] < |roles|
    ensures var p := AllPlaces(roles);
      if roles[p[k]] == OtherWord then roles[p[l]] == OtherWord && p[k] < p[l]
      else roles[p[l]] == OtherWord || p[k] < p[l]
  {
    PlacesRange(roles, true, 0);
    PlacesRange(roles, false, 0);
    PlacesRise(roles, true, 0);
    PlacesRise(roles, false, 0);
    hide Places;
    var q, r := Places(roles, true, 0), Places(roles, false, 0);
    assert if k < |q| then q[k] in q else r[k - |q|] in r;
    assert if l < |q| then q[l] in q else r[l - |q|] in r;
  }

  /** Splitting a line puts the flags in front, by any reading of it. */
  lemma SplitMeans(info: FlagInfo, words: seq<string>, roles: seq<Role>) returns (p: seq<nat>)
    requires Reads(info, words, roles)
    ensures FlagsInFront(words, Sorted(info, words), roles, p)
  {
    hide Half, Reads, RolesOf;
    ReadLength(info, words, roles);
    assert roles == RolesOf(info, words) by {
      RolesRead(info, words);
      ReadOnce(info, words, roles, RolesOf(info, words), |words|);
    }
    p := AllPlaces(roles);
    AllPlacesComplete(roles);
    assert Sorted(info, words) == At(words, p) by {
      assert words[0..] == words;
      HalfPlaces(info, words, 0, true);
      HalfPlaces(info, words, 0, false);
      SortedHalves(info, words);
      AtConcat(words, Places(roles, true, 0), Places(roles, false, 0));
    }
    hide Places, Sorted;
    forall k: nat, l: nat | k < l < |p|
      ensures if roles[p[k]] == OtherWord then roles[p[l]] == OtherWord && p[k] < p[l]
              else roles[p[l]] == OtherWord || p[k] < p[l]
    {
      AllPlacesOrdered(roles, k, l);
    }
    hide AllPlaces;
  }

  lemma SortedHalves(info: FlagInfo, words: seq<string>)
    ensures Sorted(info, words) == Half(info, words, true) + Half(info, words, false)
  {
  }

  lemma ReadLength(info: FlagInfo, words: seq<string>, roles: seq<Role>)
    requires Reads(info, words, roles)
    ensures |roles| == |words|
  {
  }

  lemma {:induction false} RisesBy(words: seq<string>, result: seq<string>, roles: seq<Role>, p: seq<nat>, k: nat, l: nat)
    requires FlagsInFront(words, result, roles, p) && k < l < |p| && roles[p[l]] != OtherWord
    ensures p[k] + (l - k) <= p[l]
  {
    assert p[l - 1] < p[l];
    if l > k + 1 { RisesBy(words, result, roles, p, k, l - 1); }
  }

  /** A flag that takes a value is followed by the word that followed it. */
  lemma ValueFollows(info: FlagInfo, words: seq<string>, result: seq<string>, roles: seq<Role>, p: seq<nat>, k: nat)
    requires Reads(info, words, roles) && FlagsInFront(words, result, roles, p)
    requires k < |p| && p[k] + 1 < |words| && roles[p[k]] == FlagWord && OpenFlag(info, words[p[k]])
    ensures k + 1 < |p| && p[k + 1] == p[k] + 1 && result[k + 1] == words[p[k] + 1]
  {
    hide OpenFlag, KnownFlag;
    var i := p[k];
    assert ReadAt(info, words, roles, i + 1);
    assert i + 1 in p;
    var l :| 0 <= l < |p| && p[l] == i + 1;
    if l < k {
      assert false;
    }
    RisesBy(words, result, roles, p, k, l);
  }

  // ---------------------------------------------------------------- the subcommand

  /** From word i on every word up to n is a dashed word or the value of one, as marked; n is neither. */
  ghost predicate SkipsTo(info: FlagInfo, args: seq<string>, i: nat, n: nat, values: seq<bool>) {
    && i <= n < |args| && |values| == n + 1 && !values[i] && !values[n] && !Dashed(args[n])
    && (forall j | i < j <= n :: values[j] <==> !values[j - 1] && OpenFlag(info, args[j - 1]))
    && (forall j | i <= j < n :: values[j] || Dashed(args[j]))
  }

  /** Word n is the subcommand: the first after the program name that is no flag and no value of one. */
  ghost predicate Subcommand(info: FlagInfo, args: seq<string>, n: nat) {
    exists values :: SkipsTo(info, args, 1, n, values)
  }

  lemma {:induction false} SubcommandIff(info: FlagInfo, args: seq<string>, i: nat, n: nat)
    ensures SubcommandFrom(info, args, i) == Some(n) <==> exists values :: SkipsTo(info, args, i, n, values)
    decreases |args| - i
  {
    hide OpenFlag, Dashed, TakesNext;
    if i < |args| && !Dashed(args[i]) {
      if i == n { assert SkipsTo(info, args, i, n, seq(n + 1, j => false)); }
    } else if i < |args| {
      KindsOf(info, args[i]);
      var m := if TakesNext(info, args[i]) then i + 2 else i + 1;
      SubcommandIff(info, args, m, n);
      if exists values :: SkipsTo(info, args, m, n, values) {
        var values :| SkipsTo(info, args, m, n, values);
        var more := if m == i + 2 then values[i := false][i + 1 := true] else values[i := false];
        assert SkipsTo(info, args, i, n, more);
      }
      if exists values :: SkipsTo(info, args, i, n, values) {
        var values :| SkipsTo(info, args, i, n, values);
        assert i != n && (values[i + 1] <==> !values[i + 1 - 1] && OpenFlag(info, args[i + 1 - 1]));
        if m == i + 2 { assert values[i + 1] && n >= i + 2 && !values[i + 2]; }
        assert SkipsTo(info, args, m, n, values);
      }
    }
  }

  /** What the reordered line is: the line itself if there is no subcommand; otherwise
      it stays as it is up to the subcommand, and behind it the known flags come first
      with their values, the other words after them, both in their old order. */
  ghost predicate FlagsMoved(info: FlagInfo, args: seq<string>, result: seq<string>) {
    && (|args| < 3 || (forall n: nat :: !Subcommand(info, args, n)) ==> result == args)
    && (forall n: nat | Subcommand(info, args, n) && |args| >= 3 ::
          && n + 1 <= |args| == |result| && result[..n + 1] == args[..n + 1]
          && InFront(info, args[n + 1..], result[n + 1..]))
  }

  lemma ReorderedMeans(info: FlagInfo, args: seq<string>)
    ensures FlagsMoved(info, args, Reordered(info, args))
  {
    hide Sorted, SubcommandFrom, SkipsTo, Reads, FlagsInFront;
    var result := Reordered(info, args);
    forall n: nat ensures Subcommand(info, args, n) <==> SubcommandFrom(info, args, 1) == Some(n) {
      SubcommandIff(info, args, 1, n);
    }
    forall n: nat | Subcommand(info, args, n) && |args| >= 3
      ensures n + 1 <= |args| == |result| && result[..n + 1] == args[..n + 1]
      ensures InFront(info, args[n + 1..], result[n + 1..])
    {
      SubcommandInside(info, args, n);
      SortedPermutes(info, args[n + 1..]);
      if n + 1 == |args| { SortedNone(info); }
      assert args[..n + 1] + args[n + 1..] == args;
      assert result == args[..n + 1] + Sorted(info, args[n + 1..]);
      assert result[n + 1..] == Sorted(info, args[n + 1..]);
      SplitInFront(info, args[n + 1..]);
    }
  }

  lemma SplitInFront(info: FlagInfo, words: seq<string>)
    ensures InFront(info, words, Sorted(info, words))
  {
    hide Sorted, Reads, FlagsInFront;
    forall roles | Reads(info, words, roles) ensures exists p :: FlagsInFront(words, Sorted(info, words), roles, p) {
      var p := SplitMeans(info, words, roles);
    }
  }

  /** At a concrete line: a known flag behind a positional word moves in front of it. */
  lemma FlagMoves()
    ensures Reordered(FlagInfo({}, {"gui"}), ["twins", "start", "pos", "--gui"]) == ["twins", "start", "--gui", "pos"]
  {
    var info, rest := FlagInfo({}, {"gui"}), ["pos", "--gui"];
    StripsName("--", "gui", "");
    assert "--" + "gui" + "" == "--gui";
    assert StandsAlone(info, "--gui") && !Dashed("pos") && !Dashed("start");
    hide StripFlagName;
    assert rest[1..] == ["--gui"] && rest[1..][1..] == [];
    assert "--gui" != "--" by { assert |"--gui"| != |"--"|; }
    assert ["--gui"][..1] == ["--gui"] && ["--gui"][1..] == [];
    assert Pieces(info, ["--gui"]) == [Flag(["--gui"])] + Pieces(info, []);
    assert Pieces(info, rest) == [Positional("pos")] + [Flag(["--gui"])];
    assert [Positional("pos"), Flag(["--gui"])][1..] == [Flag(["--gui"])] && [Flag(["--gui"])][1..] == [];
    assert Half(info, rest, true) == ["--gui"];
    assert [Positional("pos")][1..] == [];
    assert Half(info, rest, false) == ["pos"];
    assert ["twins", "start", "pos", "--gui"][..2] == ["twins", "start"] && ["twins", "start", "pos", "--gui"][2..] == rest;
  }

  lemma SubcommandInside(info: FlagInfo, args: seq<string>, n: nat)
    requires Subcommand(info, args, n)
    ensures n < |args|
  {
  }

  lemma SortedNone(info: FlagInfo)
    ensures Sorted(info, []) == []
  {
    HalfNone(info);
  }

  // ---------------------------------------------------------------- the loops

  /** Splits the words after the subcommand. */
  method SplitWords(info: FlagInfo, rest: seq<string>) returns (flags: seq<string>, positionals: seq<string>)
    ensures flags == Half(info, rest, true) && positionals == Half(info, rest, false)
  {
    hide *;
    flags, positionals := [], [];
    var i := 0;
    assert rest[0..] == rest;
    HalfNone(info);
    while i < |rest|
      invariant 0 <= i <= |rest|
      invariant flags + Half(info, rest[i..], true) == Half(info, rest, true)
      invariant positionals + Half(info, rest[i..], false) == Half(info, rest, false)
    {
      var arg := rest[i];
      SplitStep(info, rest[i..]);
      WordKind(info, arg);
      if arg == "--" {
        assert rest[i..][|rest| - i..] == [];
        positionals := positionals + rest[i..];
        return;
      }
      if Dashed(arg) {
        var name := StripFlagName(arg);
        if name in info.valueFlags {
          if '=' in arg {
            flags := flags + [arg];
          } else if i + 1 < |rest| {
            assert rest[i..][2..] == rest[i + 2..] && rest[i..][..2] == [arg, rest[i + 1]];
            flags := flags + [arg, rest[i + 1]];
            i := i + 1;
          } else {
            flags := flags + [arg];
          }
        } else if name in info.boolFlags {
          flags := flags + [arg];
        } else {
          positionals := positionals + [arg];
        }
      } else {
        positionals := positionals + [arg];
      }
      i := i + 1;
    }
    assert rest[i..] == [];
  }

  lemma WordKind(info: FlagInfo, arg: string)
    ensures TakesNext(info, arg) <==> Dashed(arg) && StripFlagName(arg) in info.valueFlags && '=' !in arg
    ensures StandsAlone(info, arg) <==>
      && Dashed(arg) && !TakesNext(info, arg)
      && (StripFlagName(arg) in info.valueFlags || StripFlagName(arg) in info.boolFlags)
  {
  }

  lemma HalfNone(info: FlagInfo)
    ensures forall f :: Half(info, [], f) == []
  {
  }

  /** The two halves of a line by its first piece. */
  lemma SplitStep(info: FlagInfo, words: seq<string>)
    requires words != []
    ensures var n := if words[0] == "--" then |words| else if TakesNext(info, words[0]) && |words| > 1 then 2 else 1;
      var flag := words[0] != "--" && (TakesNext(info, words[0]) || StandsAlone(info, words[0]));
      forall f :: Half(info, words, f) == (if flag == f then words[..n] else []) + Half(info, words[n..], f)
  {
    hide TakesNext, StandsAlone;
    NotBoth(info, words[0]);
    var n := if words[0] == "--" then |words| else if TakesNext(info, words[0]) && |words| > 1 then 2 else 1;
    var ps := Pieces(info, words);
    var p, rest := ps[0], Pieces(info, words[n..]);
    if words[0] == "--" || (TakesNext(info, words[0]) && |words| == 1) {
      assert words[n..] == [] && words[..n] == words && ps == [p];
    }
    assert ps == [p] + rest && ps[1..] == rest && p.Words() == words[..n];
    forall f ensures Half(info, words, f) == (if p.Flag? == f then p.Words() else []) + Half(info, words[n..], f) {
      assert ([p] + Select(rest, f))[1..] == Select(rest, f);
    }
  }

  method ReorderSubcommandArgs(info: FlagInfo, args: seq<string>) returns (result: seq<string>)
    ensures result == Reordered(info, args)
    ensures FlagsMoved(info, args, result)
  {
    hide StripFlagName, Half, FlagsMoved;
    ReorderedMeans(info, args);
    if |args| < 3 {
      return args;
    }
    var subcmdIdx, i := -1, 1;
    while i < |args|
      invariant 1 <= i && SubcommandFrom(info, args, 1) == SubcommandFrom(info, args, i)
      invariant subcmdIdx == -1
      decreases |args| - i
    {
      var arg := args[i];
      if Dashed(arg) {
        var name := StripFlagName(arg);
        if '=' !in arg && name in info.valueFlags {
          i := i + 1;
        }
        i := i + 1;
        continue;
      }
      subcmdIdx := i;
      break;
    }
    if subcmdIdx < 0 || subcmdIdx >= |args| - 1 {
      return args;
    }
    var flags, positionals := SplitWords(info, args[subcmdIdx + 1..]);
    return args[..subcmdIdx + 1] + flags + positionals;
  }
}
