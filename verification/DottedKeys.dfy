/** Dotted keys: splitting at the dots, the order of strings, and why the keys of
    one section stand together once keys are sorted. */
module DottedKeys {

  /** The components between the dots. */
  function Split(s: string): (parts: seq<string>)
    ensures parts != []
  {
    if s == "" then [""]
    else if s[0] == '.' then [""] + Split(s[1..])
    else
      var rest := Split(s[1..]);
      [[s[0]] + rest[0]] + rest[1..]
  }

  function Join(parts: seq<string>): string
    requires parts != []
  {
    if |parts| == 1 then parts[0] else parts[0] + "." + Join(parts[1..])
  }

  lemma {:induction false} JoinSplit(s: string)
    ensures Join(Split(s)) == s
  {
    if s != "" {
      JoinSplit(s[1..]);
      var rest := Split(s[1..]);
      assert s == [s[0]] + s[1..];
      if s[0] == '.' {
        assert ([""] + rest)[1..] == rest;
        assert "" + "." + Join(rest) == s;
      } else {
        var parts := [[s[0]] + rest[0]] + rest[1..];
        assert parts[1..] == rest[1..];
        if |rest| > 1 { assert [s[0]] + rest[0] + "." + Join(rest[1..]) == [s[0]] + (rest[0] + "." + Join(rest[1..])); }
      }
    }
  }

  lemma SplitHead(s: string)
    requires s != ""
    ensures var rest := Split(s[1..]);
      Split(s) == if s[0] == '.' then [""] + rest else [[s[0]] + rest[0]] + rest[1..]
  {
  }

  lemma Drop<T>(a: seq<T>, b: seq<T>)
    requires a != []
    ensures (a + b)[0] == a[0] && (a + b)[1..] == a[1..] + b
  {
  }

  lemma Regroup<T>(a: seq<T>, b: seq<T>, c: seq<T>)
    ensures a + (b + c) == a + b + c
  {
  }

  lemma SplitDot(t: string)
    ensures Split("" + "." + t) == Split("") + Split(t)
  {
    assert "" + "." + t == "." + t && ("." + t)[1..] == t;
    SplitHead("." + t);
  }

  /** A dot between two strings separates their components. */
  lemma {:induction false} SplitConcat(a: string, t: string)
    ensures Split(a + "." + t) == Split(a) + Split(t)
  {
    hide Split;
    if a == "" {
      SplitDot(t);
    } else {
      var rest, more := Split(a[1..]), Split(t);
      SplitConcat(a[1..], t);
      Regroup(a, ".", t);
      Drop(a, "." + t);
      Regroup(a[1..], ".", t);
      SplitHead(a + "." + t);
      SplitHead(a);
      Drop(rest, more);
      Regroup([""], rest, more);
      Regroup([[a[0]] + rest[0]], rest[1..], more);
    }
  }

  lemma {:induction false} SplitNoDot(s: string)
    requires '.' !in s
    ensures Split(s) == [s]
  {
    if s != "" {
      SplitNoDot(s[1..]);
      assert [s[0]] + s[1..] == s;
    }
  }

  lemma {:induction false} SplitHasNoDots(s: string)
    ensures forall i | 0 <= i < |Split(s)| :: '.' !in Split(s)[i]
  {
    if s != "" { SplitHasNoDots(s[1..]); }
  }

  lemma {:induction false} SplitJoin(parts: seq<string>)
    requires parts != [] && forall i | 0 <= i < |parts| :: '.' !in parts[i]
    ensures Split(Join(parts)) == parts
  {
    SplitNoDot(parts[0]);
    if |parts| == 1 {
      assert parts == [parts[0]];
    } else {
      SplitJoin(parts[1..]);
      SplitConcat(parts[0], Join(parts[1..]));
      assert [parts[0]] + parts[1..] == parts;
    }
  }

  lemma {:induction false} JoinConcat(a: seq<string>, b: seq<string>)
    requires a != [] && b != []
    ensures Join(a + b) == Join(a) + "." + Join(b)
  {
    if |a| == 1 {
      assert (a + b)[1..] == b;
    } else {
      JoinConcat(a[1..], b);
      assert (a + b)[1..] == a[1..] + b;
    }
  }

  // ---------------------------------------------------------------- string order

  /** Lexicographic order, as strings are compared. */
  predicate LexLe(a: string, b: string) {
    a == "" || (b != "" && (a[0] < b[0] || (a[0] == b[0] && LexLe(a[1..], b[1..]))))
  }

  predicate StartsWith(s: string, p: string) {
    |p| <= |s| && s[..|p|] == p
  }

  lemma {:induction false} LexRefl(a: string)
    ensures LexLe(a, a)
  {
    if a != "" { LexRefl(a[1..]); }
  }

  /** Strings with a common prefix stand together in the order. */
  lemma {:induction false} PrefixContiguous(x: string, y: string, z: string, p: string)
    requires LexLe(x, y) && LexLe(y, z) && StartsWith(x, p) && StartsWith(z, p)
    ensures StartsWith(y, p)
  {
    if p != "" {
      assert x[0] == p[0] && z[0] == p[0];
      assert x[1..][..|p| - 1] == p[1..] && z[1..][..|p| - 1] == p[1..] by {
        assert x[..|p|][1..] == p[1..] && z[..|p|][1..] == p[1..];
        assert x[..|p|][1..] == x[1..][..|p| - 1] && z[..|p|][1..] == z[1..][..|p| - 1];
      }
      PrefixContiguous(x[1..], y[1..], z[1..], p[1..]);
      assert y[..|p|] == [y[0]] + y[1..][..|p| - 1] == [p[0]] + p[1..] == p;
    }
  }

  /** The first components of a key are its section exactly if the key starts with the section and a dot. */
  lemma SectionPrefix(key: string, p: seq<string>)
    requires p != [] && forall i | 0 <= i < |p| :: '.' !in p[i]
    ensures |p| < |Split(key)| && Split(key)[..|p|] == p <==> StartsWith(key, Join(p) + ".")
  {
    var parts, prefix := Split(key), Join(p) + ".";
    if |p| < |parts| && parts[..|p|] == p {
      JoinSplit(key);
      assert parts == p + parts[|p|..];
      JoinConcat(p, parts[|p|..]);
    }
    if StartsWith(key, prefix) {
      var t := key[|prefix|..];
      assert key == prefix + t;
      SplitConcat(Join(p), t);
      SplitJoin(p);
    }
  }

  /** Between two keys of a section, in string order, lie only keys of that section. */
  lemma SectionContiguous(x: string, y: string, z: string, p: seq<string>)
    requires LexLe(x, y) && LexLe(y, z) && p != []
    requires |p| < |Split(x)| && Split(x)[..|p|] == p && |p| < |Split(z)| && Split(z)[..|p|] == p
    ensures |p| < |Split(y)| && Split(y)[..|p|] == p
  {
    SplitHasNoDots(x);
    assert forall i | 0 <= i < |p| :: p[i] == Split(x)[..|p|][i] == Split(x)[i];
    SectionPrefix(x, p);
    SectionPrefix(y, p);
    SectionPrefix(z, p);
    PrefixContiguous(x, y, z, Join(p) + ".");
  }
}
