/**
  The string operations that the batch lists and the download tokens rest on: `split`, `join`,
  substring containment, the SQL `LIKE` operator, and the order in which strings sort.
 */
module Text {
  import opened Sequences

  /** `s.split(sep)`: one part more than there are separators. */
  function Split(s: string, sep: char): (parts: seq<string>)
    ensures |parts| > 0
  {
    if s == "" then [""]
    else
      var rest := Split(s[1..], sep);
      if s[0] == sep then [""] + rest else [[s[0]] + rest[0]] + rest[1..]
  }

  /** `sep.join(parts)`. */
  function Join(parts: seq<string>, sep: char): string {
    if parts == [] then ""
    else if |parts| == 1 then parts[0]
    else parts[0] + [sep] + Join(parts[1..], sep)
  }

  lemma {:induction false} SplitWhole(s: string, sep: char)
    requires sep !in s
    ensures Split(s, sep) == [s]
  {
    if s != "" {
      SplitWhole(s[1..], sep);
      assert s == [s[0]] + s[1..];
    }
  }

  lemma {:induction false} SplitFirst(part: string, rest: string, sep: char)
    requires sep !in part
    ensures Split(part + [sep] + rest, sep) == [part] + Split(rest, sep)
  {
    if part == "" {
      assert part + [sep] + rest == [sep] + rest;
    } else {
      SplitFirst(part[1..], rest, sep);
      assert (part + [sep] + rest)[1..] == part[1..] + [sep] + rest;
      assert part == [part[0]] + part[1..];
    }
  }

  /** Splitting undoes joining, for parts free of the separator. */
  lemma {:induction false} SplitJoin(parts: seq<string>, sep: char)
    requires parts != [] && forall i :: 0 <= i < |parts| ==> sep !in parts[i]
    ensures Split(Join(parts, sep), sep) == parts
  {
    if |parts| == 1 {
      SplitWhole(parts[0], sep);
    } else {
      SplitJoin(parts[1..], sep);
      SplitFirst(parts[0], Join(parts[1..], sep), sep);
    }
  }

  /** Joining undoes splitting, for every string. */
  lemma {:induction false} JoinSplit(s: string, sep: char)
    ensures Join(Split(s, sep), sep) == s
  {
    if s != "" {
      JoinSplit(s[1..], sep);
      var rest := Split(s[1..], sep);
      if s[0] == sep {
        assert ([""] + rest)[1..] == rest;
      } else {
        assert ([[s[0]] + rest[0]] + rest[1..])[1..] == rest[1..];
      }
    }
  }

  /** Splitting works on the two sides of a separator apart. */
  lemma {:induction false} SplitConcat(a: string, b: string, sep: char)
    ensures Split(a + [sep] + b, sep) == Split(a, sep) + Split(b, sep)
  {
    if a == "" {
      assert a + [sep] + b == [sep] + b;
    } else {
      assert (a + [sep] + b)[1..] == a[1..] + [sep] + b;
      SplitConcat(a[1..], b, sep);
    }
  }

  lemma {:induction false} PartsSepFree(s: string, sep: char)
    ensures forall i :: 0 <= i < |Split(s, sep)| ==> sep !in Split(s, sep)[i]
  {
    if s != "" {
      PartsSepFree(s[1..], sep);
    }
  }

  /** `part` stands in `s` at `i`, between separators or the ends. */
  predicate PartAt(s: string, sep: char, part: string, i: nat) {
    && i + |part| <= |s| && s[i..i + |part|] == part
    && (i == 0 || s[i - 1] == sep)
    && (i + |part| == |s| || s[i + |part|] == sep)
  }

  lemma {:induction false} SplitParts(s: string, sep: char, part: string)
    requires sep !in part
    ensures Split(s, sep)[0] == part <==> PartAt(s, sep, part, 0)
    ensures part in Split(s, sep)[1..] <==> exists i :: 1 <= i <= |s| && PartAt(s, sep, part, i)
    decreases |s|
  {
    if s != "" {
      var tail := s[1..];
      SplitParts(tail, sep, part);
      forall i: nat | 1 <= i < |s|
        ensures PartAt(s, sep, part, i + 1) <==> PartAt(tail, sep, part, i)
      {
        PartShift(s, sep, part, i);
      }
      if s[0] == sep {
        PartShift(s, sep, part, 0);
        assert Split(s, sep)[1..] == Split(tail, sep);
        assert part in Split(tail, sep) <==> part == Split(tail, sep)[0] || part in Split(tail, sep)[1..];
        assert PartAt(s, sep, part, 1) <==> PartAt(tail, sep, part, 0);
        if part != "" {
          assert part[0] != sep;
        }
        FrontShift(s, sep, part);
      } else {
        assert !PartAt(s, sep, part, 1);
        assert Split(s, sep)[1..] == Split(tail, sep)[1..];
        FrontShift(s, sep, part);
        if part != "" {
          SplitParts(tail, sep, part[1..]);
          assert part == [part[0]] + part[1..];
          assert PartAt(s, sep, part, 0) ==> s[0..|part|][0] == part[0];
          assert PartAt(s, sep, part, 0) <==> s[0] == part[0] && PartAt(tail, sep, part[1..], 0) by {
            if s[0] == part[0] && |part| <= |s| {
              assert s[..|part|] == [s[0]] + tail[..|part| - 1];
            }
          }
        }
      }
    }
  }

  lemma PartShift(s: string, sep: char, part: string, i: nat)
    requires i < |s| && (i > 0 || s[0] == sep)
    ensures PartAt(s, sep, part, i + 1) <==> PartAt(s[1..], sep, part, i)
  {
    if i + 1 + |part| <= |s| {
      assert s[i + 1..i + 1 + |part|] == s[1..][i..i + |part|];
    }
  }

  /** Occurrences away from the front of `s`, found in its tail. */
  lemma FrontShift(s: string, sep: char, part: string)
    requires s != ""
    ensures (exists i :: 1 <= i <= |s| && PartAt(s, sep, part, i)) <==>
              PartAt(s, sep, part, 1) || exists j :: 1 <= j <= |s[1..]| && PartAt(s[1..], sep, part, j)
  {
    if i: nat :| 1 <= i <= |s| && PartAt(s, sep, part, i) && i > 1 {
      PartShift(s, sep, part, i - 1);
      assert PartAt(s[1..], sep, part, i - 1);
    }
    if j: nat :| 1 <= j <= |s[1..]| && PartAt(s[1..], sep, part, j) {
      PartShift(s, sep, part, j);
      assert PartAt(s, sep, part, j + 1);
    }
  }

  // ---------------------------------------------------------------- containment

  predicate OccursAt(s: string, t: string, i: nat) {
    i + |t| <= |s| && s[i..i + |t|] == t
  }

  predicate Contains(s: string, t: string) {
    exists i :: 0 <= i <= |s| && OccursAt(s, t, i)
  }

  /**
    A part is in the list exactly when it occurs, fenced by separators, in the fenced list.
   */
  lemma InSplitIffContained(s: string, sep: char, part: string)
    requires sep !in part
    ensures part in Split(s, sep) <==> Contains([sep] + s + [sep], [sep] + part + [sep])
  {
    SplitParts(s, sep, part);
    var parts := Split(s, sep);
    assert parts == [parts[0]] + parts[1..];
    var fenced, wanted := [sep] + s + [sep], [sep] + part + [sep];
    if part in parts {
      var i: nat :| 0 <= i <= |s| && PartAt(s, sep, part, i);
      FencedOccurrence(s, sep, part, i);
      assert OccursAt(fenced, wanted, i);
    }
    if Contains(fenced, wanted) {
      var i: nat :| 0 <= i <= |fenced| && OccursAt(fenced, wanted, i);
      FencedOccurrence(s, sep, part, i);
    }
  }

  lemma SplitAfter(tail: string, sep: char, list: string) returns (after: seq<string>)
    requires PartAt(tail, sep, list, 0)
    ensures Split(tail, sep) == Split(list, sep) + after
  {
    if |list| < |tail| {
      assert tail == list + [sep] + tail[|list| + 1..];
      SplitConcat(list, tail[|list| + 1..], sep);
      after := Split(tail[|list| + 1..], sep);
    } else {
      assert tail == list;
      after := [];
    }
  }

  lemma SplitBefore(s: string, sep: char, list: string, i: nat) returns (before: seq<string>)
    requires PartAt(s, sep, list, i)
    ensures PartAt(s[i..], sep, list, 0) && Split(s, sep) == before + Split(s[i..], sep)
  {
    assert s[i..][0..|list|] == s[i..i + |list|];
    if i > 0 {
      assert s == s[..i - 1] + [sep] + s[i..];
      SplitConcat(s[..i - 1], s[i..], sep);
      before := Split(s[..i - 1], sep);
    } else {
      assert s[i..] == s;
      before := [];
    }
  }

  /** A list that occurs, fenced, in a fenced list is a stretch of its parts. */
  lemma FencedStretch(s: string, sep: char, list: string) returns (before: seq<string>, after: seq<string>)
    requires Contains([sep] + s + [sep], [sep] + list + [sep])
    ensures Split(s, sep) == before + Split(list, sep) + after
  {
    var fenced, wanted := [sep] + s + [sep], [sep] + list + [sep];
    var i: nat :| 0 <= i <= |fenced| && OccursAt(fenced, wanted, i);
    FencedOccurrence(s, sep, list, i);
    before := SplitBefore(s, sep, list, i);
    after := SplitAfter(s[i..], sep, list);
  }

  lemma FencedOccurrence(s: string, sep: char, part: string, i: nat)
    ensures PartAt(s, sep, part, i) <==> OccursAt([sep] + s + [sep], [sep] + part + [sep], i)
  {
    var fenced, wanted := [sep] + s + [sep], [sep] + part + [sep];
    if i + |wanted| <= |fenced| {
      var piece := fenced[i..i + |wanted|];
      var inner, same := piece[1..|part| + 1], s[i..i + |part|];
      assert inner == same by {
        forall k | 0 <= k < |part|
          ensures inner[k] == same[k]
        {
          assert inner[k] == fenced[i + k + 1];
        }
      }
      assert wanted[1..|part| + 1] == part;
      assert piece == [fenced[i]] + s[i..i + |part|] + [fenced[i + |part| + 1]];
      assert piece[0] == fenced[i] && piece[|part| + 1] == fenced[i + |part| + 1];
      assert wanted[0] == sep && wanted[|part| + 1] == sep;
    }
  }

  // ---------------------------------------------------------------- LIKE

  /**
    How a database reads LIKE: whether letters are compared without case, as SQLite does, and whether
    `\` escapes, as in PostgreSQL.
   */
  datatype Dialect = Dialect(foldCase: bool, escapes: bool)

  function FoldChar(c: char): char {
    if 'A' <= c <= 'Z' then (c as int + 32) as char else c
  }

  predicate IsLetter(c: char) {
    'A' <= c <= 'Z' || 'a' <= c <= 'z'
  }

  function Swapped(c: char): char
    requires IsLetter(c)
  {
    if 'A' <= c <= 'Z' then (c as int + 32) as char else (c as int - 32) as char
  }

  predicate SameChar(c: char, d: char, foldCase: bool) {
    if foldCase then FoldChar(c) == FoldChar(d) else c == d
  }

  predicate Escape(c: char, d: Dialect) {
    c == '\\' && d.escapes
  }

  predicate Wildcard(c: char) {
    c == '%' || c == '_'
  }

  /** `s LIKE p`; a pattern that ends in an escape matches nothing. */
  predicate Like(s: string, p: string, d: Dialect)
    decreases |s| + |p|
  {
    if p == "" then s == ""
    else if p[0] == '%' then Like(s, p[1..], d) || (s != "" && Like(s[1..], p, d))
    else if Escape(p[0], d) then |p| > 1 && s != "" && SameChar(p[1], s[0], d.foldCase) && Like(s[1..], p[2..], d)
    else s != "" && (p[0] == '_' || SameChar(p[0], s[0], d.foldCase)) && Like(s[1..], p[1..], d)
  }

  /** Characters that stand for themselves and for nothing else. */
  predicate LiteralChar(c: char, d: Dialect) {
    !Wildcard(c) && !Escape(c, d) && !(d.foldCase && IsLetter(c))
  }

  predicate Literal(p: string, d: Dialect) {
    forall i :: 0 <= i < |p| ==> LiteralChar(p[i], d)
  }

  /** A string that matches the pattern: other case for letters where case is ignored, "a" for wildcards. */
  function Instance(p: string, d: Dialect): string {
    if p == "" then ""
    else if Escape(p[0], d) then (if |p| == 1 then "" else [p[1]] + Instance(p[2..], d))
    else if Wildcard(p[0]) then "a" + Instance(p[1..], d)
    else if d.foldCase && IsLetter(p[0]) then [Swapped(p[0])] + Instance(p[1..], d)
    else [p[0]] + Instance(p[1..], d)
  }

  /** Patterns that match one string only: no wildcard, and no letter where case is ignored. */
  predicate Fixed(p: string, d: Dialect) {
    forall i :: 0 <= i < |p| ==> !Wildcard(p[i]) && !(d.foldCase && IsLetter(p[i]))
  }

  /** The pattern ends in an escape. */
  predicate Dangling(p: string, d: Dialect) {
    p != "" && (if Escape(p[0], d) then |p| == 1 || Dangling(p[2..], d) else Dangling(p[1..], d))
  }

  /** Which characters count as the same: equal ones, and where case is ignored an ASCII letter and its other case. */
  lemma SameCharIff(c: char, d: char, foldCase: bool)
    ensures SameChar(c, d, foldCase) <==>
              || c == d
              || (foldCase && 'a' <= c <= 'z' && d as int == c as int - 32)
              || (foldCase && 'A' <= c <= 'Z' && d as int == c as int + 32)
  {
  }

  lemma {:induction false} LiteralInstance(p: string, d: Dialect)
    requires Literal(p, d)
    ensures Instance(p, d) == p && !Dangling(p, d) && Fixed(p, d)
  {
    if p != "" {
      LiteralInstance(p[1..], d);
    }
  }

  /** A pattern that is not literal matches some other string than itself. */
  lemma {:induction false} InstanceDiffersIff(p: string, d: Dialect)
    ensures |Instance(p, d)| <= |p|
    ensures Instance(p, d) != p <==> !Literal(p, d)
  {
    if p != "" {
      if Escape(p[0], d) {
        if |p| > 1 {
          InstanceDiffersIff(p[2..], d);
        }
      } else {
        InstanceDiffersIff(p[1..], d);
        if LiteralChar(p[0], d) {
          assert p == [p[0]] + p[1..];
          assert Instance(p, d)[1..] == Instance(p[1..], d);
        } else {
          assert Instance(p, d)[0] != p[0];
        }
      }
    }
  }

  /** A comma after a pattern completes it, even when it takes the last escape. */
  lemma {:induction false} InstanceFenced(p: string, d: Dialect)
    ensures Instance(p + ",", d) == Instance(p, d) + "," && !Dangling(p + ",", d)
  {
    if p == "" {
      assert p + "," == ",";
      assert Instance(",", d) == [','] + Instance(",,"[2..], d);
    } else if Escape(p[0], d) {
      if |p| == 1 {
        assert (p + ",")[1] == ',' && (p + ",")[2..] == "";
      } else {
        assert (p + ",")[2..] == p[2..] + ",";
        InstanceFenced(p[2..], d);
      }
    } else {
      assert (p + ",")[1..] == p[1..] + ",";
      InstanceFenced(p[1..], d);
    }
  }

  lemma {:induction false} LikeAnything(s: string, d: Dialect)
    ensures Like(s, "%", d)
  {
    if s != "" {
      LikeAnything(s[1..], d);
    } else {
      assert Like("", "", d);
    }
  }

  lemma {:induction false} LikePrefix(s: string, p: string, d: Dialect)
    requires Fixed(p, d) && !Dangling(p, d)
    ensures Like(s, p + "%", d) <==> OccursAt(s, Instance(p, d), 0)
  {
    if p == "" {
      assert p + "%" == "%";
      LikeAnything(s, d);
    } else if s != "" {
      var n := if Escape(p[0], d) then 2 else 1;
      assert (p + "%")[n..] == p[n..] + "%";
      LikePrefix(s[1..], p[n..], d);
      OccursFirst(s, p[n - 1], Instance(p[n..], d));
      assert Instance(p, d) == [p[n - 1]] + Instance(p[n..], d);
    }
  }

  lemma OccursFirst(s: string, c: char, t: string)
    requires s != ""
    ensures OccursAt(s, [c] + t, 0) <==> s[0] == c && OccursAt(s[1..], t, 0)
  {
    if |t| < |s| {
      assert s[..|t| + 1] == [s[0]] + s[1..][..|t|];
      assert s[..|t| + 1][1..] == s[1..][..|t|] && ([c] + t)[1..] == t;
    }
  }

  /** Between two `%`, a pattern with one instance matches exactly the strings that contain it. */
  lemma {:induction false} LikeContains(s: string, p: string, d: Dialect)
    requires Fixed(p, d) && !Dangling(p, d)
    ensures Like(s, "%" + p + "%", d) <==> Contains(s, Instance(p, d))
    decreases |s|
  {
    var pattern, t := "%" + p + "%", Instance(p, d);
    assert pattern[1..] == p + "%";
    LikePrefix(s, p, d);
    if s != "" {
      LikeContains(s[1..], p, d);
      ContainsStep(s, t);
    }
  }

  lemma OccursShift(s: string, t: string, i: nat)
    requires s != ""
    ensures OccursAt(s, t, i + 1) <==> OccursAt(s[1..], t, i)
  {
    if i + 1 + |t| <= |s| {
      assert s[i + 1..i + 1 + |t|] == s[1..][i..i + |t|];
    }
  }

  lemma ContainsStep(s: string, t: string)
    requires s != ""
    ensures Contains(s, t) <==> OccursAt(s, t, 0) || Contains(s[1..], t)
  {
    if i: nat :| 0 <= i <= |s| && OccursAt(s, t, i) && i > 0 {
      OccursShift(s, t, i - 1);
      assert OccursAt(s[1..], t, i - 1);
    }
    if i: nat :| 0 <= i <= |s[1..]| && OccursAt(s[1..], t, i) {
      OccursShift(s, t, i);
      assert OccursAt(s, t, i + 1);
    }
  }

  /** A pattern matches its instance, in a list between commas. */
  lemma {:induction false} LikeInstance(p: string, d: Dialect)
    ensures Like(Instance(p, d) + ",", p + ",%", d)
  {
    var s, pattern := Instance(p, d) + ",", p + ",%";
    if p == "" || (|p| == 1 && Escape(p[0], d)) {
      LikeAnything("", d);
      assert s == "," && s[1..] == "";
      assert pattern[|p| + 1..] == "%";
    } else {
      var n := if Escape(p[0], d) then 2 else 1;
      LikeInstance(p[n..], d);
      assert s[1..] == Instance(p[n..], d) + ",";
      assert pattern[n..] == p[n..] + ",%";
      if p[0] == '%' {
        assert Like(s[1..], pattern[1..], d);
        assert Like(s[1..], pattern, d);
      }
    }
  }

  // ---------------------------------------------------------------- sorting

  predicate Less(a: string, b: string) {
    b != "" && (a == "" || a[0] < b[0] || (a[0] == b[0] && Less(a[1..], b[1..])))
  }

  /** The order of strings, character by character: the smaller at the first difference, or a proper prefix. */
  lemma {:induction false} LessIff(a: string, b: string)
    ensures Less(a, b) <==>
              || (|a| < |b| && a == b[..|a|])
              || exists i :: 0 <= i < |a| && i < |b| && a[..i] == b[..i] && a[i] < b[i]
  {
    if a != "" && b != "" {
      LessIff(a[1..], b[1..]);
      if a[0] == b[0] {
        if |a| < |b| && a[1..] == b[1..][..|a[1..]|] {
          assert a == [a[0]] + a[1..] && b[..|a|] == [b[0]] + b[1..][..|a[1..]|];
        }
        if i :| 0 <= i < |a[1..]| && i < |b[1..]| && a[1..][..i] == b[1..][..i] && a[1..][i] < b[1..][i] {
          assert a[..i + 1] == [a[0]] + a[1..][..i] && b[..i + 1] == [b[0]] + b[1..][..i];
          assert a[..i + 1] == b[..i + 1] && a[i + 1] < b[i + 1];
        }
        if |a| < |b| && a == b[..|a|] {
          assert a[1..] == b[1..][..|a[1..]|];
        }
        if i :| 0 <= i < |a| && i < |b| && a[..i] == b[..i] && a[i] < b[i] {
          assert i > 0;
          assert a[1..][..i - 1] == a[..i][1..] && b[1..][..i - 1] == b[..i][1..];
          assert a[1..][i - 1] < b[1..][i - 1];
        }
      } else {
        assert a[..0] == b[..0];
        assert forall i :: 0 < i <= |a| && i <= |b| ==> a[..i][0] != b[..i][0];
      }
    }
  }

  lemma {:induction false} LessTotal(a: string, b: string)
    ensures Less(a, b) || a == b || Less(b, a)
    ensures !(Less(a, b) && Less(b, a)) && !Less(a, a)
  {
    if a != "" {
      LessTotal(a[1..], a[1..]);
    }
    if a != "" && b != "" {
      LessTotal(a[1..], b[1..]);
      assert a == [a[0]] + a[1..] && b == [b[0]] + b[1..];
    }
  }

  lemma {:induction false} LessTransitive(a: string, b: string, c: string)
    requires Less(a, b) && Less(b, c)
    ensures Less(a, c)
  {
    if a != "" && a[0] == b[0] == c[0] {
      LessTransitive(a[1..], b[1..], c[1..]);
    }
  }

  predicate IsLeast(s: set<string>, x: string) {
    x in s && forall y :: y in s && y != x ==> Less(x, y)
  }

  lemma {:induction false} LeastExists(s: set<string>)
    requires s != {}
    ensures exists x :: IsLeast(s, x)
  {
    var y :| y in s;
    if s == {y} {
      assert IsLeast(s, y);
    } else {
      LeastExists(s - {y});
      var x :| IsLeast(s - {y}, x);
      LessTotal(x, y);
      if Less(x, y) {
        assert IsLeast(s, x);
      } else {
        forall z | z in s && z != y
          ensures Less(y, z)
        {
          if z != x {
            assert z in s - {y};
            LessTransitive(y, x, z);
          }
        }
        assert IsLeast(s, y);
      }
    }
  }

  function Least(s: set<string>): (x: string)
    requires s != {}
    ensures IsLeast(s, x)
  {
    LeastExists(s);
    assert forall x, y :: IsLeast(s, x) && IsLeast(s, y) && x != y ==> Less(x, y) && Less(y, x);
    assert forall x, y :: IsLeast(s, x) && IsLeast(s, y) ==> x == y by {
      forall x, y | IsLeast(s, x) && IsLeast(s, y)
        ensures x == y
      {
        LessTotal(x, y);
      }
    }
    var x :| x in s && IsLeast(s, x);
    x
  }

  /** `sorted(s)`. */
  function Sorted(s: set<string>): seq<string> {
    if s == {} then [] else [Least(s)] + Sorted(s - {Least(s)})
  }

  predicate Ascending(parts: seq<string>) {
    forall i, j :: 0 <= i < j < |parts| ==> Less(parts[i], parts[j])
  }

  lemma {:induction false} SortedSpec(s: set<string>)
    ensures Elements(Sorted(s)) == s && Ascending(Sorted(s))
  {
    if s != {} {
      var x := Least(s);
      SortedSpec(s - {x});
      assert Elements([x] + Sorted(s - {x})) == {x} + Elements(Sorted(s - {x}));
      forall j | 0 <= j < |Sorted(s - {x})|
        ensures Less(x, Sorted(s - {x})[j])
      {
        assert Sorted(s - {x})[j] in Elements(Sorted(s - {x}));
      }
    }
  }

  lemma FirstIsLeast(parts: seq<string>)
    requires parts != [] && Ascending(parts)
    ensures Elements(parts) != {} && Least(Elements(parts)) == parts[0]
    ensures Elements(parts) - {parts[0]} == Elements(parts[1..])
  {
    var s := Elements(parts);
    assert parts[0] in s;
    assert parts == [parts[0]] + parts[1..];
    LessTotal(Least(s), parts[0]);
    LessTotal(parts[0], parts[0]);
    forall y | y in s && y != parts[0]
      ensures Less(parts[0], y)
    {
      var i :| 0 <= i < |parts| && parts[i] == y;
    }
  }

  /** An ascending list is the sorted list of its elements. */
  lemma {:induction false} SortedUnique(parts: seq<string>)
    requires Ascending(parts)
    ensures Sorted(Elements(parts)) == parts
  {
    if parts != [] {
      FirstIsLeast(parts);
      SortedUnique(parts[1..]);
      assert parts == [parts[0]] + parts[1..];
    }
  }
}
