/** The few Python string operations the rewriter relies on: `in`, `split`,
    `join` and `replace`, and the first-occurrence search behind them and
    `re.search`, written out over `seq<char>`. */
module Text {
  import opened Wrappers

  /** `p` occurs in `s` starting at index `i`. */
  predicate OccursAt(s: string, p: string, i: int) {
    0 <= i && i + |p| <= |s| && s[i..i + |p|] == p
  }

  /** Occurrences in `s` at `j >= 1` are the occurrences in `s[1..]` at `j - 1`. */
  lemma ShiftOccurrence(s: string, p: string)
    requires |s| > 0
    ensures forall j :: 1 <= j ==> (OccursAt(s, p, j) <==> OccursAt(s[1..], p, j - 1))
  {
    forall j | 1 <= j
      ensures OccursAt(s, p, j) <==> OccursAt(s[1..], p, j - 1)
    {
      if j + |p| <= |s| {
        assert s[1..][j - 1..j - 1 + |p|] == s[j..j + |p|];
      }
    }
  }

  /** The first index at which `p` occurs in `s`, if any: the search behind
      `re.search`, `split` and `in`. */
  function Find(s: string, p: string): (r: Option<nat>)
    ensures r.Some? ==> OccursAt(s, p, r.value)
    ensures r.Some? ==> forall j :: 0 <= j < r.value ==> !OccursAt(s, p, j)
    ensures r.None? ==> forall j :: !OccursAt(s, p, j)
    decreases |s|
  {
    if |s| < |p| then None
    else if p <= s then
      assert s[0..|p|] == p;
      Some(0)
    else
      assert !OccursAt(s, p, 0) by { assert s[0..|p|] == s[..|p|]; }
      ShiftOccurrence(s, p);
      var rest := Find(s[1..], p);
      if rest.None? then None else Some(rest.value + 1)
  }

  /** Python's `p in s`. */
  function Contains(s: string, p: string): (r: bool)
    ensures r <==> exists j :: OccursAt(s, p, j)
  {
    Find(s, p).Some?
  }

  /** For a one-character pattern, substring containment is membership. */
  lemma ContainsChar(s: string, c: char)
    ensures Contains(s, [c]) <==> c in s
  {
    if c in s {
      var j :| 0 <= j < |s| && s[j] == c;
      assert s[j..j + 1] == [c];
      assert OccursAt(s, [c], j);
    }
    if Contains(s, [c]) {
      var j :| OccursAt(s, [c], j);
      assert s[j] == s[j..j + 1][0];
    }
  }

  /** An occurrence in a prefix of `s` is an occurrence in `s` that ends inside the prefix. */
  lemma PrefixOccurrence(s: string, p: string, m: nat, j: int)
    requires m <= |s| && OccursAt(s[..m], p, j)
    ensures OccursAt(s, p, j) && j + |p| <= m
  {
    assert s[..m][j..j + |p|] == s[j..j + |p|];
  }

  /** Python's `sep.join(parts)`. */
  function JoinWith(sep: string, parts: seq<string>): string
  {
    if |parts| == 0 then ""
    else if |parts| == 1 then parts[0]
    else parts[0] + sep + JoinWith(sep, parts[1..])
  }

  /** The text before the first separator, at `i`, holds no separator, not
      even one running into the separator at `i`. */
  lemma FirstPiece(s: string, sep: string, i: nat)
    requires |sep| > 0 && Find(s, sep) == Some(i)
    ensures s == s[..i] + sep + s[i + |sep|..]
    ensures !Contains(s[..i], sep)
    ensures !Contains(s[..i] + sep[..|sep| - 1], sep)
  {
    CutAt(s, sep, i);
    NoneBefore(s, sep, i, i);
    NoneBefore(s, sep, i, i + |sep| - 1);
  }

  /** `s` around an occurrence of `sep` at `i`. */
  lemma CutAt(s: string, sep: string, i: nat)
    requires |sep| > 0 && OccursAt(s, sep, i)
    ensures s == s[..i] + sep + s[i + |sep|..]
    ensures s[..i] + sep[..|sep| - 1] == s[..i + |sep| - 1]
  {
  }

  /** A prefix of `s` too short to hold the first separator, at `i`, holds none. */
  lemma NoneBefore(s: string, sep: string, i: nat, m: nat)
    requires Find(s, sep) == Some(i) && m < i + |sep| && m <= |s|
    ensures !Contains(s[..m], sep)
  {
    forall j | OccursAt(s[..m], sep, j) ensures false {
      PrefixOccurrence(s, sep, m, j);
    }
  }

  /** Python's `s.split(sep)` for a non-empty separator: the pieces between the
      non-overlapping occurrences of `sep`, found left to right. Each cut is
      the leftmost one: no occurrence of `sep` starts inside a piece that a
      separator follows, even one running into that separator. */
  function SplitOn(s: string, sep: string): (r: seq<string>)
    requires |sep| > 0
    ensures |r| >= 1
    ensures JoinWith(sep, r) == s
    ensures forall k :: 0 <= k < |r| ==> !Contains(r[k], sep)
    ensures forall k :: 0 <= k < |r| - 1 ==> !Contains(r[k] + sep[..|sep| - 1], sep)
    decreases |s|
  {
    match Find(s, sep)
    case None => [s]
    case Some(i) =>
      var tail := SplitOn(s[i + |sep|..], sep);
      FirstPiece(s, sep, i);
      var r := [s[..i]] + tail;
      assert r[1..] == tail;
      assert forall k :: 1 <= k < |r| ==> r[k] == tail[k - 1];
      r
  }

  /** Splitting `s` whose first character does not start a separator: that
      character is glued to the first piece of the split of `s[1..]`. */
  lemma SplitOnCons(s: string, sep: string)
    requires |sep| > 0 && |s| > 0 && !(sep <= s)
    ensures var t := SplitOn(s[1..], sep);
      SplitOn(s, sep) == [[s[0]] + t[0]] + t[1..]
  {
    var t := SplitOn(s[1..], sep);
    match Find(s[1..], sep)
    case None =>
      assert Find(s, sep).None?;
      assert [s[0]] + s[1..] == s;
    case Some(j) =>
      var rest := SplitOn(s[1..][j + |sep|..], sep);
      assert |s| >= |sep|;
      assert Find(s, sep) == Some(j + 1);
      assert s[1..][j + |sep|..] == s[j + 1 + |sep|..];
      assert SplitOn(s, sep) == [s[..j + 1]] + rest;
      assert t == [s[1..][..j]] + rest;
      assert [s[0]] + s[1..][..j] == s[..j + 1];
  }

  /** Joining after gluing a prefix `c` to the first piece. */
  lemma JoinWithGlued(sep: string, c: string, t: seq<string>)
    requires |t| >= 1
    ensures JoinWith(sep, [c + t[0]] + t[1..]) == c + JoinWith(sep, t)
  {
    var g := [c + t[0]] + t[1..];
    if |t| > 1 {
      assert g[1..] == t[1..];
    }
  }

  /** Python's `s.replace(pat, rep)` for a non-empty pattern: every
      non-overlapping occurrence of `pat`, scanning left to right, becomes `rep`. */
  function ReplaceAll(s: string, pat: string, rep: string): (r: string)
    requires |pat| > 0
    ensures forall c :: c in r ==> c in s || c in rep
    decreases |s|
  {
    if |s| < |pat| then s
    else if pat <= s then rep + ReplaceAll(s[|pat|..], pat, rep)
    else [s[0]] + ReplaceAll(s[1..], pat, rep)
  }

  /** `s.replace(pat, rep) == rep.join(s.split(pat))`, the identity Python
      documents between the two. */
  lemma {:induction false} ReplaceAllIsJoinOfSplit(s: string, pat: string, rep: string)
    requires |pat| > 0
    ensures ReplaceAll(s, pat, rep) == JoinWith(rep, SplitOn(s, pat))
    decreases |s|
  {
    if |s| < |pat| {
      assert Find(s, pat).None?;
    } else if pat <= s {
      assert s[0..|pat|] == pat;
      assert Find(s, pat) == Some(0);
      var tail := SplitOn(s[|pat|..], pat);
      ReplaceAllIsJoinOfSplit(s[|pat|..], pat, rep);
      assert SplitOn(s, pat) == [s[..0]] + tail;
      assert ([s[..0]] + tail)[1..] == tail;
    } else {
      ReplaceAllIsJoinOfSplit(s[1..], pat, rep);
      SplitOnCons(s, pat);
      JoinWithGlued(rep, [s[0]], SplitOn(s[1..], pat));
    }
  }

  /** A text with no occurrence of `pat` is left as it is by `replace`. */
  lemma ReplaceAllAbsent(s: string, pat: string, rep: string)
    requires |pat| > 0 && !Contains(s, pat)
    ensures ReplaceAll(s, pat, rep) == s
  {
    ReplaceAllIsJoinOfSplit(s, pat, rep);
    assert Find(s, pat).None?;
  }

  /** The first `c` in `a + [c] + b` is the one after `a` when `a` has none. */
  lemma FindCharAfter(a: string, c: char, b: string)
    requires c !in a
    ensures Find(a + [c] + b, [c]) == Some(|a|)
  {
    var s := a + [c] + b;
    assert s[|a|..|a| + 1] == [c];
    assert OccursAt(s, [c], |a|);
    forall i | 0 <= i < |a|
      ensures !OccursAt(s, [c], i)
    {
      assert s[i..i + 1][0] == s[i] == a[i];
    }
  }

  /** Python's `s.split("\n")`: the pieces between the newlines, found one
      character at a time. */
  function SplitLines(s: string): (r: seq<string>)
    ensures |r| >= 1
    decreases |s|
  {
    if |s| == 0 then [""]
    else
      var rest := SplitLines(s[1..]);
      if s[0] == '\n' then [""] + rest else [[s[0]] + rest[0]] + rest[1..]
  }

  /** Python's `"\n".join(parts)`. */
  function JoinLines(parts: seq<string>): string
  {
    JoinWith("\n", parts)
  }

  /** Joining the pieces with newlines gives the text back. */
  lemma {:induction false} JoinSplitLines(s: string)
    ensures JoinLines(SplitLines(s)) == s
    decreases |s|
  {
    if |s| > 0 {
      var rest := SplitLines(s[1..]);
      JoinSplitLines(s[1..]);
      assert s == [s[0]] + s[1..];
      if s[0] == '\n' {
        assert ([""] + rest)[1..] == rest;
      } else {
        JoinWithGlued("\n", [s[0]], rest);
      }
    }
  }

  /** No piece holds a newline. */
  lemma {:induction false} SplitLinesNoNewline(s: string)
    ensures forall k :: 0 <= k < |SplitLines(s)| ==> '\n' !in SplitLines(s)[k]
    decreases |s|
  {
    if |s| > 0 {
      SplitLinesNoNewline(s[1..]);
      var rest := SplitLines(s[1..]);
      if s[0] != '\n' {
        assert '\n' !in [s[0]] + rest[0];
      }
    }
  }

  /** A text without a newline is a single piece. */
  lemma {:induction false} SplitLinesSingle(s: string)
    requires '\n' !in s
    ensures SplitLines(s) == [s]
    decreases |s|
  {
    if |s| > 0 {
      assert '\n' !in s[1..];
      SplitLinesSingle(s[1..]);
      assert [s[0]] + s[1..] == s;
    }
  }

  /** A newline between two texts separates their line lists. */
  lemma {:induction false} SplitLinesAppend(a: string, b: string)
    ensures SplitLines(a + "\n" + b) == SplitLines(a) + SplitLines(b)
    decreases |a|
  {
    var s := a + "\n" + b;
    if |a| == 0 {
      assert s[0] == '\n' && s[1..] == b;
    } else {
      assert s[0] == a[0] && s[1..] == a[1..] + "\n" + b;
      SplitLinesAppend(a[1..], b);
      var ra, rb := SplitLines(a[1..]), SplitLines(b);
      if a[0] != '\n' {
        assert (ra + rb)[0] == ra[0] && (ra + rb)[1..] == ra[1..] + rb;
      }
    }
  }

  /** The same, with the newline grouped with the second text. */
  lemma SplitLinesCons(a: string, b: string)
    ensures SplitLines(a + ("\n" + b)) == SplitLines(a) + SplitLines(b)
  {
    assert a + ("\n" + b) == a + "\n" + b;
    SplitLinesAppend(a, b);
  }

  /** Splitting lines inverts joining them, for pieces without a newline. */
  lemma {:induction false} SplitJoinLines(parts: seq<string>)
    requires |parts| >= 1
    requires forall k :: 0 <= k < |parts| ==> '\n' !in parts[k]
    ensures SplitLines(JoinLines(parts)) == parts
  {
    SplitLinesSingle(parts[0]);
    if |parts| > 1 {
      SplitJoinLines(parts[1..]);
      SplitLinesAppend(parts[0], JoinLines(parts[1..]));
      assert parts == [parts[0]] + parts[1..];
    }
  }

  /** Splitting into lines is Python's general `split` with the separator `"\n"`. */
  lemma {:induction false} SplitLinesIsSplit(s: string)
    ensures SplitLines(s) == SplitOn(s, "\n")
    decreases |s|
  {
    if |s| == 0 {
      assert Find(s, "\n").None?;
    } else if s[0] == '\n' {
      SplitLinesIsSplit(s[1..]);
      assert s[0..1] == "\n";
      assert Find(s, "\n") == Some(0);
      assert s[..0] == "" && s[0 + |"\n"|..] == s[1..];
    } else {
      SplitLinesIsSplit(s[1..]);
      assert !("\n" <= s);
      SplitOnCons(s, "\n");
    }
  }

  /** Two texts without a newline, joined by one, are two lines. */
  lemma TwoLines(a: string, b: string)
    requires '\n' !in a && '\n' !in b
    ensures SplitLines(a + ("\n" + b)) == [a, b]
  {
    SplitLinesSingle(a);
    SplitLinesSingle(b);
    SplitLinesCons(a, b);
  }

  /** Four texts without a newline, joined by newlines, are four lines. */
  lemma FourLines(a: string, b: string, c: string, d: string)
    requires '\n' !in a && '\n' !in b && '\n' !in c && '\n' !in d
    ensures SplitLines(a + ("\n" + (b + ("\n" + (c + ("\n" + d)))))) == [a, b, c, d]
  {
    TwoLines(c, d);
    SplitLinesSingle(b);
    SplitLinesCons(b, c + ("\n" + d));
    SplitLinesSingle(a);
    SplitLinesCons(a, b + ("\n" + (c + ("\n" + d))));
  }
}
