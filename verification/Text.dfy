/** Strings as the program uses them: byte order, splitting, joining and trimming. */
module Text {

  /** The order of Go's `<` on strings and of SQLite's comparison of TEXT: the first differing character decides. */
  predicate Less(a: string, b: string) {
    b != [] && (a == [] || a[0] < b[0] || (a[0] == b[0] && Less(a[1..], b[1..])))
  }

  lemma {:induction false} LessIrreflexive(a: string)
    ensures !Less(a, a)
  {
    if a != [] { LessIrreflexive(a[1..]); }
  }

  lemma {:induction false} LessTransitive(a: string, b: string, c: string)
    requires Less(a, b) && Less(b, c)
    ensures Less(a, c)
  {
    if a != [] && a[0] == b[0] && b[0] == c[0] {
      LessTransitive(a[1..], b[1..], c[1..]);
    }
  }

  lemma {:induction false} LessTotal(a: string, b: string)
    ensures a == b || Less(a, b) || Less(b, a)
  {
    if a != [] && b != [] && a[0] == b[0] {
      LessTotal(a[1..], b[1..]);
      assert a == [a[0]] + a[1..] && b == [b[0]] + b[1..];
    }
  }

  /** Two texts that begin with fields of the same width are ordered by the fields first, then by what follows. */
  lemma {:induction false} LessByField(x: string, y: string, s: string, t: string)
    requires |x| == |y|
    ensures Less(x + s, y + t) <==> Less(x, y) || (x == y && Less(s, t))
  {
    if x == [] {
      assert x + s == s && y + t == t;
    } else {
      assert (x + s)[1..] == x[1..] + s && (y + t)[1..] == y[1..] + t;
      LessByField(x[1..], y[1..], s, t);
      assert x == [x[0]] + x[1..] && y == [y[0]] + y[1..];
      LessIrreflexive(x);
    }
  }

  /** `strings.Split(s, sep)` for a one-character separator: never an empty list. */
  function Split(s: string, sep: char): (parts: seq<string>)
    ensures |parts| >= 1
    ensures forall i :: 0 <= i < |parts| ==> sep !in parts[i]
  {
    if s == [] then [[]]
    else
      var rest := Split(s[1..], sep);
      if s[0] == sep then [[]] + rest
      else [[s[0]] + rest[0]] + rest[1..]
  }

  function Join(parts: seq<string>, sep: char): string
    requires |parts| >= 1
  {
    if |parts| == 1 then parts[0] else parts[0] + [sep] + Join(parts[1..], sep)
  }

  /** Splitting peels off the text before the first separator. */
  lemma {:induction false} SplitAtFirst(head: string, tail: string, sep: char)
    requires sep !in head
    ensures Split(head + [sep] + tail, sep) == [head] + Split(tail, sep)
  {
    var s := head + [sep] + tail;
    if head == [] {
      assert s[1..] == tail;
    } else {
      assert s[1..] == head[1..] + [sep] + tail;
      SplitAtFirst(head[1..], tail, sep);
      assert head == [head[0]] + head[1..];
    }
  }

  lemma {:induction false} SplitPlain(s: string, sep: char)
    requires sep !in s
    ensures Split(s, sep) == [s]
  {
    if s != [] {
      SplitPlain(s[1..], sep);
      assert s == [s[0]] + s[1..];
    }
  }

  /** Splitting undoes joining, whatever separator-free parts were joined. */
  lemma {:induction false} SplitJoin(parts: seq<string>, sep: char)
    requires |parts| >= 1
    requires forall i :: 0 <= i < |parts| ==> sep !in parts[i]
    ensures Split(Join(parts, sep), sep) == parts
  {
    if |parts| == 1 {
      SplitPlain(parts[0], sep);
    } else {
      SplitJoin(parts[1..], sep);
      SplitAtFirst(parts[0], Join(parts[1..], sep), sep);
    }
  }

  /** Lists one after the other. */
  function Concat(runs: seq<seq<string>>): seq<string> {
    if runs == [] then [] else runs[0] + Concat(runs[1..])
  }

  lemma {:induction false} ConcatAppend(runs: seq<seq<string>>, last: seq<string>)
    ensures Concat(runs + [last]) == Concat(runs) + last
  {
    if runs == [] {
      assert [last][1..] == [];
    } else {
      assert (runs + [last])[1..] == runs[1..] + [last];
      ConcatAppend(runs[1..], last);
    }
  }

  /** `strings.Trim(s, "/")` and its like, for one character. */
  function Trim(s: string, c: char): string {
    TrimRight(TrimLeft(s, c), c)
  }

  function TrimLeft(s: string, c: char): string {
    if s != [] && s[0] == c then TrimLeft(s[1..], c) else s
  }

  function TrimRight(s: string, c: char): string {
    if s != [] && s[|s| - 1] == c then TrimRight(s[..|s| - 1], c) else s
  }

  /** `strings.TrimSuffix(s, "/")`: at most one character is removed. */
  function TrimOneSuffix(s: string, c: char): string {
    if s != [] && s[|s| - 1] == c then s[..|s| - 1] else s
  }

  /** Splitting a text that continues after a separator continues the list of parts. */
  lemma {:induction false} SplitAppend(s: string, tail: string, sep: char)
    ensures Split(s + [sep] + tail, sep) == Split(s, sep) + Split(tail, sep)
  {
    if s == [] {
      assert s + [sep] + tail == [sep] + tail;
      assert ([sep] + tail)[1..] == tail;
    } else {
      assert (s + [sep] + tail)[1..] == s[1..] + [sep] + tail;
      SplitAppend(s[1..], tail, sep);
    }
  }

  lemma {:induction false} JoinSplit(s: string, sep: char)
    ensures Join(Split(s, sep), sep) == s
  {
    if s != [] {
      JoinSplit(s[1..], sep);
      var rest := Split(s[1..], sep);
      if s[0] != sep {
        assert s == [s[0]] + Join(rest, sep);
        if |rest| > 1 { assert Split(s, sep)[1..] == rest[1..]; }
      } else {
        assert Split(s, sep)[1..] == rest;
      }
    }
  }

  lemma {:induction false} JoinAppend(a: seq<string>, b: seq<string>, sep: char)
    requires |a| >= 1 && |b| >= 1
    ensures Join(a + b, sep) == Join(a, sep) + [sep] + Join(b, sep)
  {
    if |a| == 1 {
      assert (a + b)[1..] == b;
    } else {
      assert (a + b)[1..] == a[1..] + b;
      JoinAppend(a[1..], b, sep);
    }
  }

  function ReplaceAll(s: string, from: char, to: char): (r: string)
    ensures |r| == |s|
    ensures forall i :: 0 <= i < |s| ==> r[i] == if s[i] == from then to else s[i]
  {
    seq(|s|, i requires 0 <= i < |s| => if s[i] == from then to else s[i])
  }

  /** The path tests `under`, `PathIsWithin`: the directory itself or something below it, element by element. */
  predicate AtOrUnder(p: string, dir: string) {
    p == dir || dir + "/" <= p
  }

  /** A child of a directory lies at or under `d` only if it is `d` or its parent already does. */
  lemma ChildAtOrUnder(parent: string, name: string, d: string)
    requires '/' !in name
    ensures AtOrUnder(parent + "/" + name, d) <==> parent + "/" + name == d || AtOrUnder(parent, d)
  {
    var child := parent + "/" + name;
    if d + "/" <= child {
      assert child[|d|] == '/';
      assert |d| <= |parent|;
      assert d == child[..|d|] == parent[..|d|];
      if |d| < |parent| {
        assert parent[|d|] == '/';
        assert parent[..|d| + 1] == d + "/";
      }
    }
    if AtOrUnder(parent, d) {
      if parent == d {
        assert child[..|d| + 1] == d + "/";
      } else {
        assert child[..|d| + 1] == parent[..|d| + 1];
      }
    }
  }

  lemma UnderHasPrefix(p: string, dir: string)
    requires dir + "/" <= p
    ensures Split(dir, '/') <= Split(p, '/')
  {
    var tail := p[|dir| + 1..];
    assert p == dir + ['/'] + tail;
    SplitAppend(dir, tail, '/');
  }

  lemma PrefixIsUnder(p: string, dir: string)
    requires Split(dir, '/') <= Split(p, '/')
    ensures AtOrUnder(p, dir)
  {
    hide Split, Join;
    var a, b := Split(dir, '/'), Split(p, '/');
    JoinSplit(dir, '/');
    JoinSplit(p, '/');
    var rest := b[|a|..];
    assert b == a + rest;
    if rest == [] {
      assert b == a;
    } else {
      JoinAppend(a, rest, '/');
      assert p == dir + ['/'] + Join(rest, '/');
    }
  }

  /** The text test compares whole path elements: `/home/user2` is not under `/home/user`. */
  lemma UnderIsByElement(p: string, dir: string)
    ensures AtOrUnder(p, dir) <==> Split(dir, '/') <= Split(p, '/')
  {
    if dir + "/" <= p { UnderHasPrefix(p, dir); }
    if Split(dir, '/') <= Split(p, '/') { PrefixIsUnder(p, dir); }
  }
}
