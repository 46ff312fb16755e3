/** Strings as the plugin's configuration handles them: the TreeSet order,
    TreeSet insertion, StringUtils.join, and String.split on "\r?\n" and ";". */
module Strings {

  /** Lexicographic order on strings: the first differing character decides,
      and a proper prefix comes first. Characters compare by code point, which
      is the order of String.compareTo for names made of characters of the
      Basic Multilingual Plane; compareTo compares UTF-16 code units, so a
      name with a supplementary character can sort differently there. */
  predicate Less(a: string, b: string)
    decreases |a|
  {
    if |a| == 0 then |b| > 0
    else if |b| == 0 then false
    else if a[0] == b[0] then Less(a[1..], b[1..])
    else a[0] < b[0]
  }

  lemma {:induction false} LessIrreflexive(a: string)
    ensures !Less(a, a)
    decreases |a|
  {
    if |a| > 0 {
      LessIrreflexive(a[1..]);
    }
  }

  lemma {:induction false} LessTransitive(a: string, b: string, c: string)
    requires Less(a, b) && Less(b, c)
    ensures Less(a, c)
    decreases |a|
  {
    if |a| > 0 && a[0] == b[0] && b[0] == c[0] {
      LessTransitive(a[1..], b[1..], c[1..]);
    }
  }

  lemma {:induction false} LessTotal(a: string, b: string)
    ensures a == b || Less(a, b) || Less(b, a)
    decreases |a|
  {
    if |a| > 0 && |b| > 0 && a[0] == b[0] {
      LessTotal(a[1..], b[1..]);
      if a[1..] == b[1..] {
        assert a == [a[0]] + a[1..] && b == [b[0]] + b[1..];
      }
    }
  }

  lemma {:induction false} LessAsymmetric(a: string, b: string)
    requires Less(a, b)
    ensures !Less(b, a)
    decreases |a|
  {
    if |a| > 0 && a[0] == b[0] {
      LessAsymmetric(a[1..], b[1..]);
    }
  }

  /** Strictly ascending: how a TreeSet<String> lists its elements. */
  predicate StrictlySorted(xs: seq<string>)
  {
    forall i, j | 0 <= i < j < |xs| :: Less(xs[i], xs[j])
  }

  function Elems(xs: seq<string>): set<string>
  {
    set x | x in xs
  }

  /** TreeSet.add: the element goes to its place in the order, and nothing
      changes if it is already present. */
  function Insert(xs: seq<string>, x: string): (r: seq<string>)
    ensures Elems(r) == Elems(xs) + {x}
    ensures |r| <= |xs| + 1
  {
    if xs == [] then [x]
    else if x == xs[0] then xs
    else if Less(x, xs[0]) then [x] + xs
    else
      var t := Insert(xs[1..], x);
      assert Elems(xs) == {xs[0]} + Elems(xs[1..]) by {
        assert xs == [xs[0]] + xs[1..];
      }
      assert Elems([xs[0]] + t) == {xs[0]} + Elems(t);
      [xs[0]] + t
  }

  lemma {:induction false} HeadBelowTail(xs: seq<string>)
    requires StrictlySorted(xs) && |xs| > 0
    ensures forall y | y in Elems(xs[1..]) :: Less(xs[0], y)
  {
    forall y | y in Elems(xs[1..]) ensures Less(xs[0], y) {
      var m :| 0 <= m < |xs[1..]| && xs[1..][m] == y;
      assert xs[m + 1] == y;
    }
  }

  lemma {:induction false} InsertSorted(xs: seq<string>, x: string)
    requires StrictlySorted(xs)
    ensures StrictlySorted(Insert(xs, x))
    decreases |xs|
  {
    if xs == [] || x == xs[0] {
    } else if Less(x, xs[0]) {
      var r := [x] + xs;
      forall i, j | 0 <= i < j < |r| ensures Less(r[i], r[j]) {
        if i == 0 && j > 1 {
          LessTransitive(x, xs[0], xs[j - 1]);
        }
      }
    } else {
      LessTotal(x, xs[0]);
      InsertSorted(xs[1..], x);
      var t := Insert(xs[1..], x);
      HeadBelowTail(xs);
      var r := [xs[0]] + t;
      forall i, j | 0 <= i < j < |r| ensures Less(r[i], r[j]) {
        if i == 0 {
          assert r[j] == t[j - 1] && t[j - 1] in Elems(t);
        } else {
          assert r[i] == t[i - 1] && r[j] == t[j - 1];
        }
      }
    }
  }

  /** Adding a list of names to a TreeSet one after the other (addAll). */
  function AddAll(acc: seq<string>, xs: seq<string>): (r: seq<string>)
    ensures Elems(r) == Elems(acc) + Elems(xs)
    decreases |xs|
  {
    if xs == [] then acc
    else
      var r := AddAll(Insert(acc, xs[0]), xs[1..]);
      assert Elems(xs) == {xs[0]} + Elems(xs[1..]) by {
        assert xs == [xs[0]] + xs[1..];
      }
      r
  }

  lemma {:induction false} AddAllSorted(acc: seq<string>, xs: seq<string>)
    requires StrictlySorted(acc)
    ensures StrictlySorted(AddAll(acc, xs))
    decreases |xs|
  {
    if xs != [] {
      InsertSorted(acc, xs[0]);
      AddAllSorted(Insert(acc, xs[0]), xs[1..]);
    }
  }


  /** A fresh TreeSet filled from a list: ascending, duplicates dropped,
      exactly the names of the list. */
  function FromList(xs: seq<string>): (r: seq<string>)
    ensures StrictlySorted(r)
    ensures Elems(r) == Elems(xs)
  {
    AddAllSorted([], xs);
    AddAll([], xs)
  }

  lemma ElemsEmpty(xs: seq<string>)
    ensures Elems(xs) == {} <==> xs == []
  {
    if xs != [] {
      assert xs[0] in Elems(xs);
    }
  }

  /** A strictly sorted list is determined by its elements: the TreeSet view
      and the set view of the whitelist carry the same information. */
  lemma {:induction false} SortedUnique(a: seq<string>, b: seq<string>)
    requires StrictlySorted(a) && StrictlySorted(b)
    requires Elems(a) == Elems(b)
    ensures a == b
    decreases |a|
  {
    ElemsEmpty(a);
    ElemsEmpty(b);
    if a != [] && b != [] {
      assert a[0] in Elems(b);
      assert b[0] in Elems(a);
      var k :| 0 <= k < |b| && b[k] == a[0];
      var m :| 0 <= m < |a| && a[m] == b[0];
      if k > 0 && m > 0 {
        LessAsymmetric(b[0], a[0]);
        assert false;
      }
      assert a[0] == b[0];
      HeadBelowTail(a);
      HeadBelowTail(b);
      LessIrreflexive(a[0]);
      assert a == [a[0]] + a[1..] && b == [b[0]] + b[1..];
      assert Elems(a[1..]) == Elems(a) - {a[0]};
      assert Elems(b[1..]) == Elems(b) - {b[0]};
      SortedUnique(a[1..], b[1..]);
    }
  }

  /** StringUtils.join(names, sep). */
  function Join(xs: seq<string>, sep: string): string
    decreases |xs|
  {
    if |xs| == 0 then ""
    else if |xs| == 1 then xs[0]
    else xs[0] + sep + Join(xs[1..], sep)
  }

  /** The pieces of s between matches of the regular expression "\r?\n",
      scanning from the left: "\r\n" and a lone "\n" end a piece, a lone "\r"
      does not. Every piece is kept, including empty ones. */
  function SplitLinesRaw(s: string): (r: seq<string>)
    ensures |r| >= 1
    ensures forall k | 0 <= k < |r| :: '\n' !in r[k]
    decreases |s|
  {
    if |s| == 0 then [""]
    else if s[0] == '\n' then [""] + SplitLinesRaw(s[1..])
    else if s[0] == '\r' && |s| >= 2 && s[1] == '\n' then [""] + SplitLinesRaw(s[2..])
    else
      var rest := SplitLinesRaw(s[1..]);
      [[s[0]] + rest[0]] + rest[1..]
  }

  /** The pieces of s between occurrences of c, every piece kept. */
  function SplitOnCharRaw(s: string, c: char): (r: seq<string>)
    ensures |r| >= 1
    ensures forall k | 0 <= k < |r| :: c !in r[k]
    decreases |s|
  {
    if |s| == 0 then [""]
    else if s[0] == c then [""] + SplitOnCharRaw(s[1..], c)
    else
      var rest := SplitOnCharRaw(s[1..], c);
      [[s[0]] + rest[0]] + rest[1..]
  }

  /** The pieces without the run of empty pieces at the end. */
  function DropTrailingEmpty(xs: seq<string>): (r: seq<string>)
    ensures |r| <= |xs| && r == xs[..|r|]
    ensures forall k | |r| <= k < |xs| :: xs[k] == ""
    ensures r == [] || r[|r| - 1] != ""
    decreases |xs|
  {
    if |xs| > 0 && xs[|xs| - 1] == "" then DropTrailingEmpty(xs[..|xs| - 1]) else xs
  }

  /** String.split as Java defines it for a pattern that cannot match the
      empty string: with no match at all (the case of "") the result is the
      input alone; otherwise the pieces with trailing empty pieces removed. */
  function JavaSplit(s: string, raw: seq<string>): seq<string>
  {
    if s == "" then [""] else DropTrailingEmpty(raw)
  }

  /** s.split("\\r?\\n"). */
  function SplitOnLineBreaks(s: string): (r: seq<string>)
    ensures s == "" ==> r == [""]
    ensures s != "" ==> |r| <= |SplitLinesRaw(s)| && r == SplitLinesRaw(s)[..|r|]
    ensures s != "" ==> forall k | |r| <= k < |SplitLinesRaw(s)| :: SplitLinesRaw(s)[k] == ""
    ensures s != "" ==> r == [] || r[|r| - 1] != ""
    ensures forall k | 0 <= k < |r| :: '\n' !in r[k]
  {
    JavaSplit(s, SplitLinesRaw(s))
  }

  /** s.split(";"). */
  function SplitOnSemicolons(s: string): (r: seq<string>)
    ensures s == "" ==> r == [""]
    ensures s != "" ==> |r| <= |SplitOnCharRaw(s, ';')| && r == SplitOnCharRaw(s, ';')[..|r|]
    ensures s != "" ==> forall k | |r| <= k < |SplitOnCharRaw(s, ';')| :: SplitOnCharRaw(s, ';')[k] == ""
    ensures s != "" ==> r == [] || r[|r| - 1] != ""
    ensures forall k | 0 <= k < |r| :: ';' !in r[k]
  {
    JavaSplit(s, SplitOnCharRaw(s, ';'))
  }

  predicate NoLineBreak(s: string)
  {
    forall k | 0 <= k < |s| :: s[k] != '\n' && s[k] != '\r'
  }

  lemma {:induction false} SplitLinesRawPiece(x: string, rest: string)
    requires NoLineBreak(x)
    ensures SplitLinesRaw(x + "\n" + rest) == [x] + SplitLinesRaw(rest)
    decreases |x|
  {
    var s := x + "\n" + rest;
    if x == [] {
      assert s[1..] == rest;
    } else {
      assert s[1..] == x[1..] + "\n" + rest;
      SplitLinesRawPiece(x[1..], rest);
      assert [x[0]] + x[1..] == x;
    }
  }

  lemma {:induction false} SplitLinesRawWhole(x: string)
    requires NoLineBreak(x)
    ensures SplitLinesRaw(x) == [x]
    decreases |x|
  {
    if x != [] {
      SplitLinesRawWhole(x[1..]);
      assert [x[0]] + x[1..] == x;
    }
  }

  /** Splitting a newline-joined list of names without line breaks gives the
      list back, empty pieces included. */
  lemma {:induction false} SplitLinesRawJoin(xs: seq<string>)
    requires |xs| >= 1
    requires forall k | 0 <= k < |xs| :: NoLineBreak(xs[k])
    ensures SplitLinesRaw(Join(xs, "\n")) == xs
    decreases |xs|
  {
    if |xs| == 1 {
      SplitLinesRawWhole(xs[0]);
    } else {
      SplitLinesRawJoin(xs[1..]);
      SplitLinesRawPiece(xs[0], Join(xs[1..], "\n"));
      assert xs == [xs[0]] + xs[1..];
    }
  }

  lemma {:induction false} SplitOnCharRawPiece(x: string, c: char, rest: string)
    requires c !in x
    ensures SplitOnCharRaw(x + [c] + rest, c) == [x] + SplitOnCharRaw(rest, c)
    decreases |x|
  {
    var s := x + [c] + rest;
    if x == [] {
      assert s[1..] == rest;
    } else {
      assert s[1..] == x[1..] + [c] + rest;
      SplitOnCharRawPiece(x[1..], c, rest);
      assert [x[0]] + x[1..] == x;
    }
  }

  lemma {:induction false} SplitOnCharRawWhole(x: string, c: char)
    requires c !in x
    ensures SplitOnCharRaw(x, c) == [x]
    decreases |x|
  {
    if x != [] {
      SplitOnCharRawWhole(x[1..], c);
      assert [x[0]] + x[1..] == x;
    }
  }

  /** Splitting a list of pieces joined with c, none of which contains c,
      gives the pieces back, empty ones included. */
  lemma {:induction false} SplitOnCharRawJoin(xs: seq<string>, c: char)
    requires |xs| >= 1
    requires forall k | 0 <= k < |xs| :: c !in xs[k]
    ensures SplitOnCharRaw(Join(xs, [c]), c) == xs
    decreases |xs|
  {
    if |xs| == 1 {
      SplitOnCharRawWhole(xs[0], c);
    } else {
      SplitOnCharRawJoin(xs[1..], c);
      SplitOnCharRawPiece(xs[0], c, Join(xs[1..], [c]));
      assert xs == [xs[0]] + xs[1..];
    }
  }

  /** Joining pieces after extending the first one by a character extends the
      joined string by that character. */
  lemma {:induction false} JoinExtendFirst(a: char, xs: seq<string>, sep: string)
    requires |xs| >= 1
    ensures Join([[a] + xs[0]] + xs[1..], sep) == [a] + Join(xs, sep)
  {
    var ys := [[a] + xs[0]] + xs[1..];
    if |xs| >= 2 {
      assert ys[1..] == xs[1..];
    }
  }

  /** Joining with c the pieces of a split on c gives the string back. */
  lemma {:induction false} SplitOnCharRawThenJoin(s: string, c: char)
    ensures Join(SplitOnCharRaw(s, c), [c]) == s
    decreases |s|
  {
    if |s| > 0 {
      var rest := SplitOnCharRaw(s[1..], c);
      SplitOnCharRawThenJoin(s[1..], c);
      if s[0] == c {
        assert ([""] + rest)[1..] == rest;
      } else {
        JoinExtendFirst(s[0], rest, [c]);
      }
      assert [s[0]] + s[1..] == s;
    }
  }

  /** Joining with "\n" the pieces of a split on "\r?\n" gives the string
      back when it holds no carriage return. */
  lemma {:induction false} SplitLinesRawThenJoin(s: string)
    requires '\r' !in s
    ensures Join(SplitLinesRaw(s), "\n") == s
    decreases |s|
  {
    if |s| > 0 {
      var rest := SplitLinesRaw(s[1..]);
      assert '\r' !in s[1..];
      SplitLinesRawThenJoin(s[1..]);
      if s[0] == '\n' {
        assert ([""] + rest)[1..] == rest;
      } else {
        JoinExtendFirst(s[0], rest, "\n");
      }
      assert [s[0]] + s[1..] == s;
    }
  }
}
