/** The few Swift `String` operations the package generator relies on, with the
    facts about them that the rest of the model uses. Strings are `seq<char>`. */
module Strings {

  // ---------------------------------------------------------------------------
  // replacingOccurrences(of:with:)
  // ---------------------------------------------------------------------------

  /** `s.replacingOccurrences(of: pat, with: rep)`: scans `s` from the left and
      replaces every non-overlapping occurrence of `pat` by `rep`. */
  function ReplaceAll(s: string, pat: string, rep: string): string
    requires |pat| > 0
    decreases |s|
  {
    if |s| < |pat| then s
    else if s[..|pat|] == pat then rep + ReplaceAll(s[|pat|..], pat, rep)
    else [s[0]] + ReplaceAll(s[1..], pat, rep)
  }

  /** No occurrence of `pat` starts in `a` and ends in `b`. */
  ghost predicate NoMatchAcross(a: string, b: string, pat: string) {
    forall i :: 0 <= i < |a| < i + |pat| <= |a| + |b| ==> !MatchAt(a + b, pat, i)
  }

  /** An occurrence of `pat` starts at position `i` of `s`. */
  ghost predicate MatchAt(s: string, pat: string, i: nat) {
    i + |pat| <= |s| && s[i..i + |pat|] == pat
  }

  /** Dropping a prefix of `a` keeps the boundary with `b` free of matches. */
  lemma NoMatchAcrossTail(a: string, b: string, pat: string, k: nat)
    requires NoMatchAcross(a, b, pat) && k <= |a|
    ensures NoMatchAcross(a[k..], b, pat)
  {
    forall i | 0 <= i < |a[k..]| < i + |pat| <= |a[k..]| + |b|
      ensures !MatchAt(a[k..] + b, pat, i)
    {
      assert (a[k..] + b)[i..i + |pat|] == (a + b)[i + k..i + k + |pat|];
      assert !MatchAt(a + b, pat, i + k);
    }
  }

  /** Replacing in a concatenation is replacing in each half, provided that no
      occurrence straddles the boundary. */
  lemma {:induction false} ReplaceAllConcat(a: string, b: string, pat: string, rep: string)
    requires |pat| > 0 && NoMatchAcross(a, b, pat)
    ensures ReplaceAll(a + b, pat, rep) == ReplaceAll(a, pat, rep) + ReplaceAll(b, pat, rep)
    decreases |a|
  {
    if |a| == 0 {
      assert a + b == b;
    } else if |a| < |pat| {
      ShortPrefixConcat(a, b, pat, rep);
    } else if a[..|pat|] == pat {
      NoMatchAcrossTail(a, b, pat, |pat|);
      ReplaceAllConcat(a[|pat|..], b, pat, rep);
      MatchPrefixConcat(a, b, pat, rep);
    } else {
      NoMatchAcrossTail(a, b, pat, 1);
      ReplaceAllConcat(a[1..], b, pat, rep);
      PlainPrefixConcat(a, b, pat, rep);
    }
  }

  /** The step of ReplaceAllConcat where `a` is shorter than `pat`. */
  lemma {:induction false} ShortPrefixConcat(a: string, b: string, pat: string, rep: string)
    requires 0 < |a| < |pat| && NoMatchAcross(a, b, pat)
    ensures ReplaceAll(a + b, pat, rep) == a + ReplaceAll(b, pat, rep)
    decreases |a|
  {
    if |a + b| >= |pat| {
      assert !MatchAt(a + b, pat, 0);
      assert (a + b)[1..] == a[1..] + b;
      assert ReplaceAll(a + b, pat, rep) == [a[0]] + ReplaceAll(a[1..] + b, pat, rep);
      NoMatchAcrossTail(a, b, pat, 1);
      if |a| == 1 {
        assert a[1..] + b == b;
      } else {
        ShortPrefixConcat(a[1..], b, pat, rep);
      }
      assert a == [a[0]] + a[1..];
    }
  }

  /** The step of ReplaceAllConcat where `a` starts with `pat`. */
  lemma MatchPrefixConcat(a: string, b: string, pat: string, rep: string)
    requires 0 < |pat| <= |a| && a[..|pat|] == pat
    requires ReplaceAll(a[|pat|..] + b, pat, rep) == ReplaceAll(a[|pat|..], pat, rep) + ReplaceAll(b, pat, rep)
    ensures ReplaceAll(a + b, pat, rep) == ReplaceAll(a, pat, rep) + ReplaceAll(b, pat, rep)
  {
    assert (a + b)[..|pat|] == a[..|pat|];
    assert (a + b)[|pat|..] == a[|pat|..] + b;
  }

  /** The step of ReplaceAllConcat where `a` does not start with `pat`. */
  lemma PlainPrefixConcat(a: string, b: string, pat: string, rep: string)
    requires 0 < |pat| <= |a| && a[..|pat|] != pat
    requires ReplaceAll(a[1..] + b, pat, rep) == ReplaceAll(a[1..], pat, rep) + ReplaceAll(b, pat, rep)
    ensures ReplaceAll(a + b, pat, rep) == ReplaceAll(a, pat, rep) + ReplaceAll(b, pat, rep)
  {
    var ab := a + b;
    assert ab[..|pat|] == a[..|pat|] && ab[0] == a[0];
    assert ab[1..] == a[1..] + b;
    assert ReplaceAll(ab, pat, rep) == [a[0]] + ReplaceAll(a[1..] + b, pat, rep);
    assert ReplaceAll(a, pat, rep) == [a[0]] + ReplaceAll(a[1..], pat, rep);
  }

  /** A string that does not contain the last character of `pat` has no
      occurrence of it and is left as it is. */
  lemma {:induction false} ReplaceAllAbsent(s: string, pat: string, rep: string)
    requires |pat| > 0 && pat[|pat| - 1] !in s
    ensures ReplaceAll(s, pat, rep) == s
    decreases |s|
  {
    if |s| >= |pat| {
      assert s[|pat| - 1] == s[..|pat|][|pat| - 1];
      assert s[..|pat|] != pat;
      assert pat[|pat| - 1] !in s[1..] by {
        forall i | 0 <= i < |s[1..]| ensures s[1..][i] != pat[|pat| - 1] {
          assert s[1..][i] == s[i + 1];
        }
      }
      ReplaceAllAbsent(s[1..], pat, rep);
      assert s == [s[0]] + s[1..];
    }
  }

  /** No occurrence of a two-character pattern straddles `a` and `b` when the
      boundary characters do not spell it. */
  lemma NoMatchAcrossPair(a: string, b: string, pat: string)
    requires |pat| == 2
    requires |a| == 0 || |b| == 0 || a[|a| - 1] != pat[0] || b[0] != pat[1]
    ensures NoMatchAcross(a, b, pat)
  {
    forall i | 0 <= i < |a| < i + |pat| <= |a| + |b| ensures !MatchAt(a + b, pat, i) {
      assert i == |a| - 1;
      assert (a + b)[i] == a[|a| - 1] && (a + b)[i + 1] == b[0];
      assert (a + b)[i..i + 2][0] == (a + b)[i] && (a + b)[i..i + 2][1] == (a + b)[i + 1];
    }
  }

  /** Replacing only ever removes characters of `s` or inserts those of `rep`. */
  lemma {:induction false} ReplaceAllChars(s: string, pat: string, rep: string, c: char)
    requires |pat| > 0 && c in ReplaceAll(s, pat, rep)
    ensures c in s || c in rep
    decreases |s|
  {
    if |s| >= |pat| {
      if s[..|pat|] == pat {
        if c !in rep {
          ReplaceAllChars(s[|pat|..], pat, rep, c);
          assert c in s[|pat|..];
        }
      } else if c != s[0] && c !in rep {
        ReplaceAllChars(s[1..], pat, rep, c);
        assert c in s[1..];
      }
    }
  }

  /** Replacing one character by one character is a pointwise substitution. */
  lemma {:induction false} ReplaceCharPointwise(s: string, c: char, d: char)
    ensures |ReplaceAll(s, [c], [d])| == |s|
    ensures forall i :: 0 <= i < |s| ==>
      ReplaceAll(s, [c], [d])[i] == (if s[i] == c then d else s[i])
    decreases |s|
  {
    if |s| > 0 {
      ReplaceCharPointwise(s[1..], c, d);
      var r := ReplaceAll(s, [c], [d]);
      var t := ReplaceAll(s[1..], [c], [d]);
      assert s[..1] == [s[0]];
      assert r == [if s[0] == c then d else s[0]] + t;
      forall i | 0 < i < |s| ensures r[i] == (if s[i] == c then d else s[i]) {
        assert r[i] == t[i - 1] && s[i] == s[1..][i - 1];
      }
    }
  }

  // ---------------------------------------------------------------------------
  // joined(separator:) and line structure
  // ---------------------------------------------------------------------------

  /** `parts.joined(separator: sep)`: the separator goes between parts and never
      after the last one. */
  function Join(parts: seq<string>, sep: string): string {
    if |parts| == 0 then ""
    else if |parts| == 1 then parts[0]
    else parts[0] + sep + Join(parts[1..], sep)
  }

  lemma {:induction false} JoinAppend(a: seq<string>, b: seq<string>, sep: string)
    requires |a| > 0 && |b| > 0
    ensures Join(a + b, sep) == Join(a, sep) + sep + Join(b, sep)
    decreases |a|
  {
    if |a| == 1 {
      assert (a + b)[1..] == b;
    } else {
      assert (a + b)[1..] == a[1..] + b;
      JoinAppend(a[1..], b, sep);
    }
  }

  /** A join of two or more parts starts with the first part and the separator. */
  lemma JoinStarts(parts: seq<string>, sep: string)
    requires |parts| >= 2
    ensures |Join(parts, sep)| >= |parts[0] + sep| && Join(parts, sep)[..|parts[0] + sep|] == parts[0] + sep
  {
    var f, r := parts[0] + sep, Join(parts[1..], sep);
    assert Join(parts, sep) == f + r;
    assert (f + r)[..|f|] == f;
  }

  /** A join of two or more parts ends with the separator and the last part. */
  lemma JoinFinishes(parts: seq<string>, sep: string)
    requires |parts| >= 2
    ensures |Join(parts, sep)| >= |sep + parts[|parts| - 1]| &&
      Join(parts, sep)[|Join(parts, sep)| - |sep + parts[|parts| - 1]|..] == sep + parts[|parts| - 1]
  {
    var front, l := parts[..|parts| - 1], sep + parts[|parts| - 1];
    assert parts == front + [parts[|parts| - 1]];
    JoinAppend(front, [parts[|parts| - 1]], sep);
    var h := Join(front, sep);
    assert Join(parts, sep) == h + l;
    assert (h + l)[|h + l| - |l|..] == l;
  }

  /** The lines of a text: the pieces between newline characters, so that a text
      without a newline is one line and the empty text is one empty line. */
  function Lines(s: string): (r: seq<string>)
    ensures |r| >= 1
    decreases |s|
  {
    if |s| == 0 then [""]
    else
      var rest := Lines(s[1..]);
      if s[0] == '\n' then [""] + rest else [[s[0]] + rest[0]] + rest[1..]
  }

  lemma {:induction false} LinesOfLine(s: string)
    requires '\n' !in s
    ensures Lines(s) == [s]
    decreases |s|
  {
    if |s| > 0 {
      assert '\n' !in s[1..] by {
        forall i | 0 <= i < |s[1..]| ensures s[1..][i] != '\n' { assert s[1..][i] == s[i + 1]; }
      }
      LinesOfLine(s[1..]);
      assert s == [s[0]] + s[1..];
    }
  }

  /** A newline between two texts separates their lines. */
  lemma {:induction false} LinesConcat(a: string, b: string)
    ensures Lines(a + "\n" + b) == Lines(a) + Lines(b)
    decreases |a|
  {
    if |a| == 0 {
      assert a + "\n" + b == "\n" + b;
      assert ("\n" + b)[1..] == b;
    } else {
      assert (a + "\n" + b)[0] == a[0];
      assert (a + "\n" + b)[1..] == a[1..] + "\n" + b;
      LinesConcat(a[1..], b);
    }
  }

  /** A prefix without newlines lands on the first line. */
  lemma {:induction false} LinesPrefix(p: string, s: string)
    requires '\n' !in p
    ensures Lines(p + s) == [p + Lines(s)[0]] + Lines(s)[1..]
    decreases |p|
  {
    if |p| > 0 {
      assert (p + s)[1..] == p[1..] + s;
      assert '\n' !in p[1..] by {
        forall i | 0 <= i < |p[1..]| ensures p[1..][i] != '\n' { assert p[1..][i] == p[i + 1]; }
      }
      LinesPrefix(p[1..], s);
      assert [p[0]] + (p[1..] + Lines(s)[0]) == p + Lines(s)[0];
    } else {
      assert p + s == s;
      assert p + Lines(s)[0] == Lines(s)[0];
      assert Lines(s) == [Lines(s)[0]] + Lines(s)[1..];
    }
  }

  /** Joining newline-free lines with newlines and splitting them again gives the
      lines back. */
  lemma {:induction false} LinesOfJoin(ls: seq<string>)
    requires |ls| > 0
    requires forall i :: 0 <= i < |ls| ==> '\n' !in ls[i]
    ensures Lines(Join(ls, "\n")) == ls
    decreases |ls|
  {
    if |ls| == 1 {
      LinesOfLine(ls[0]);
    } else {
      LinesConcat(ls[0], Join(ls[1..], "\n"));
      LinesOfLine(ls[0]);
      LinesOfJoin(ls[1..]);
    }
  }

  // ---------------------------------------------------------------------------
  // split(separator:)
  // ---------------------------------------------------------------------------

  /** `s.split(separator: sep)` with Swift's defaults: empty pieces are dropped. */
  function Split(s: string, sep: char): (pieces: seq<string>)
    ensures forall i :: 0 <= i < |pieces| ==> |pieces[i]| > 0 && sep !in pieces[i]
  {
    SplitFrom(s, sep, "")
  }

  /** The piece being collected, unless it is empty. */
  function Piece(current: string): seq<string> {
    if current == "" then [] else [current]
  }

  /** Splits `s`, where `current` is the part of the present piece already read. */
  function SplitFrom(s: string, sep: char, current: string): (pieces: seq<string>)
    requires sep !in current
    ensures forall i :: 0 <= i < |pieces| ==> |pieces[i]| > 0 && sep !in pieces[i]
    decreases |s|
  {
    if |s| == 0 then Piece(current)
    else if s[0] == sep then Piece(current) + SplitFrom(s[1..], sep, "")
    else SplitFrom(s[1..], sep, current + [s[0]])
  }

  /** Concatenation of a sequence of strings. */
  function Flatten(ss: seq<string>): string {
    if |ss| == 0 then "" else ss[0] + Flatten(ss[1..])
  }

  lemma {:induction false} FlattenAppend(a: seq<string>, b: seq<string>)
    ensures Flatten(a + b) == Flatten(a) + Flatten(b)
    decreases |a|
  {
    if |a| > 0 {
      assert (a + b)[1..] == a[1..] + b;
      FlattenAppend(a[1..], b);
    } else {
      assert a + b == b;
    }
  }

  /** `s` with every `c` removed. */
  function Without(s: string, c: char): string {
    if |s| == 0 then "" else (if s[0] == c then "" else [s[0]]) + Without(s[1..], c)
  }

  lemma {:induction false} SplitFromLosesOnlySeparators(s: string, sep: char, current: string)
    requires sep !in current
    ensures Flatten(SplitFrom(s, sep, current)) == current + Without(s, sep)
    decreases |s|
  {
    if |s| > 0 {
      if s[0] == sep {
        FlattenAppend(Piece(current), SplitFrom(s[1..], sep, ""));
        SplitFromLosesOnlySeparators(s[1..], sep, "");
      } else {
        SplitFromLosesOnlySeparators(s[1..], sep, current + [s[0]]);
      }
    }
  }

  /** The pieces of a split, put back together, are the text without its
      separators: nothing but separators is lost. */
  lemma SplitLosesOnlySeparators(s: string, sep: char)
    ensures Flatten(Split(s, sep)) == Without(s, sep)
  {
    SplitFromLosesOnlySeparators(s, sep, "");
  }

  lemma {:induction false} SplitFromPlain(p: string, t: string, sep: char, current: string)
    requires sep !in current && sep !in p
    ensures SplitFrom(p + t, sep, current) == SplitFrom(t, sep, current + p)
    decreases |p|
  {
    if |p| > 0 {
      assert (p + t)[0] == p[0] && (p + t)[1..] == p[1..] + t;
      assert sep !in p[1..] by {
        forall i | 0 <= i < |p[1..]| ensures p[1..][i] != sep { assert p[1..][i] == p[i + 1]; }
      }
      SplitFromPlain(p[1..], t, sep, current + [p[0]]);
      assert current + [p[0]] + p[1..] == current + p;
    } else {
      assert p + t == t && current + p == current;
    }
  }

  /** A non-empty separator-free text is one piece. */
  lemma SplitSingle(a: string, sep: char)
    requires |a| > 0 && sep !in a
    ensures Split(a, sep) == [a]
  {
    SplitFromPlain(a, "", sep, "");
    assert a + "" == a && "" + a == a;
  }

  /** A non-empty separator-free piece followed by a separator is split off first. */
  lemma SplitLeading(a: string, t: string, sep: char)
    requires |a| > 0 && sep !in a
    ensures Split(a + [sep] + t, sep) == [a] + Split(t, sep)
  {
    assert a + [sep] + t == a + ([sep] + t);
    SplitFromPlain(a, [sep] + t, sep, "");
    assert "" + a == a;
    assert ([sep] + t)[1..] == t;
  }

  /** `s` consists of `sep` alone, any number of times. */
  predicate OnlySeparators(s: string, sep: char) {
    forall i :: 0 <= i < |s| ==> s[i] == sep
  }

  /** Leading separators give no piece. */
  lemma {:induction false} SplitSkipsSeparators(ds: string, t: string, sep: char)
    requires OnlySeparators(ds, sep)
    ensures Split(ds + t, sep) == Split(t, sep)
    decreases |ds|
  {
    if |ds| > 0 {
      assert (ds + t)[0] == sep && (ds + t)[1..] == ds[1..] + t;
      assert OnlySeparators(ds[1..], sep) by {
        forall i | 0 <= i < |ds[1..]| ensures ds[1..][i] == sep { assert ds[1..][i] == ds[i + 1]; }
      }
      SplitSkipsSeparators(ds[1..], t, sep);
    } else {
      assert ds + t == t;
    }
  }

  /** A non-empty separator-free piece followed by a run of separators is split
      off first, however long the run. */
  lemma SplitLeadingRun(a: string, ds: string, t: string, sep: char)
    requires |a| > 0 && sep !in a && |ds| > 0 && OnlySeparators(ds, sep)
    ensures Split(a + ds + t, sep) == [a] + Split(t, sep)
  {
    assert ds == [sep] + ds[1..];
    assert a + ds + t == a + [sep] + (ds[1..] + t);
    SplitLeading(a, ds[1..] + t, sep);
    assert OnlySeparators(ds[1..], sep) by {
      forall i | 0 <= i < |ds[1..]| ensures ds[1..][i] == sep { assert ds[1..][i] == ds[i + 1]; }
    }
    SplitSkipsSeparators(ds[1..], t, sep);
  }

  /** A separator-free text followed by separators is at most one piece. */
  lemma SplitTrailingRun(a: string, ds: string, sep: char)
    requires sep !in a && OnlySeparators(ds, sep)
    ensures Split(a + ds, sep) == Piece(a)
  {
    if |a| == 0 {
      assert a + ds == ds + "";
      SplitSkipsSeparators(ds, "", sep);
    } else if |ds| == 0 {
      assert a + ds == a;
      SplitSingle(a, sep);
    } else {
      assert a + ds == a + ds + "";
      SplitLeadingRun(a, ds, "", sep);
    }
  }

  /** Two non-empty separator-free pieces with one separator between them split
      back into exactly those two pieces. */
  lemma SplitPair(a: string, b: string, sep: char)
    requires |a| > 0 && |b| > 0 && sep !in a && sep !in b
    ensures Split(a + [sep] + b, sep) == [a, b]
  {
    assert a + [sep] + b == a + ([sep] + b);
    SplitFromPlain(a, [sep] + b, sep, "");
    assert "" + a == a;
    assert ([sep] + b)[1..] == b;
    SplitFromPlain(b, "", sep, "");
    assert b + "" == b && "" + b == b;
  }

  // ---------------------------------------------------------------------------
  // lowercased() and filter
  // ---------------------------------------------------------------------------

  function LowerChar(c: char): char {
    if 'A' <= c <= 'Z' then (c as int + 32) as char else c
  }

  /** `s.lowercased()`, restricted to the ASCII letters. */
  function Lowercased(s: string): (r: string)
    ensures |r| == |s|
  {
    if |s| == 0 then "" else [LowerChar(s[0])] + Lowercased(s[1..])
  }

  lemma {:induction false} LowercasedAt(s: string, i: nat)
    requires i < |s|
    ensures Lowercased(s)[i] == LowerChar(s[i])
    decreases |s|
  {
    if i > 0 {
      LowercasedAt(s[1..], i - 1);
    }
  }

  /** `r` can be obtained from `s` by deleting elements. */
  predicate IsSubsequence<T(==)>(r: seq<T>, s: seq<T>)
    decreases |s|
  {
    |r| == 0 ||
    (|s| > 0 && if r[0] == s[0] then IsSubsequence(r[1..], s[1..]) else IsSubsequence(r, s[1..]))
  }

  /** `s.filter { allowed.contains($0) }`: the characters of `s` that occur in
      `allowed`, in order. */
  function Filter(s: string, allowed: string): (r: string)
    ensures IsSubsequence(r, s)
    ensures forall c :: c in r ==> c in allowed
    ensures forall c :: c in allowed ==> multiset(r)[c] == multiset(s)[c]
    decreases |s|
  {
    if |s| == 0 then ""
    else
      assert s == [s[0]] + s[1..];
      if s[0] in allowed then [s[0]] + Filter(s[1..], allowed)
      else Filter(s[1..], allowed)
  }

  /** Filtering again removes nothing more. */
  lemma {:induction false} FilterIdempotent(s: string, allowed: string)
    ensures Filter(Filter(s, allowed), allowed) == Filter(s, allowed)
    decreases |s|
  {
    if |s| > 0 {
      FilterIdempotent(s[1..], allowed);
      if s[0] in allowed {
        var r := Filter(s, allowed);
        assert r[0] == s[0] && r[1..] == Filter(s[1..], allowed);
      }
    }
  }
}
