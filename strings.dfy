/**
 * The operations of java.lang.String (and StringBuilder joining) that the
 * hack and keybind code relies on, over `string` = `seq<char>`.
 * Case mapping is ASCII only.
 */
module Strings {

  /** `String.trim` treats every char up to U+0020 as blank. */
  predicate IsBlank(c: char) {
    c <= ' '
  }

  predicate AllBlank(s: string) {
    forall i :: 0 <= i < |s| ==> IsBlank(s[i])
  }

  /** `r` is `s` with the blank run `s[..lo]` and a blank tail removed. */
  predicate TrimmedAt(s: string, lo: int, r: string) {
    0 <= lo <= |s| - |r| && s[lo..lo + |r|] == r && AllBlank(s[..lo]) && AllBlank(s[lo + |r|..])
  }

  function TrimStart(s: string): (r: string)
    ensures |r| <= |s| && r == s[|s| - |r|..]
    ensures AllBlank(s[..|s| - |r|])
    ensures r == "" || !IsBlank(r[0])
  {
    if |s| > 0 && IsBlank(s[0]) then
      var r := TrimStart(s[1..]);
      assert s[..|s| - |r|] == [s[0]] + s[1..][..|s| - 1 - |r|];
      assert s[1..][|s| - 1 - |r|..] == s[|s| - |r|..];
      r
    else s
  }

  function TrimEnd(s: string): (r: string)
    ensures |r| <= |s| && r == s[..|r|]
    ensures AllBlank(s[|r|..])
    ensures r == "" || !IsBlank(r[|r| - 1])
  {
    if |s| > 0 && IsBlank(s[|s| - 1]) then
      var r := TrimEnd(s[..|s| - 1]);
      assert s[|r|..] == s[..|s| - 1][|r|..] + [s[|s| - 1]];
      r
    else s
  }

  /** `String.trim`: the infix of `s` left after dropping leading and trailing blanks. */
  function Trim(s: string): (r: string)
    ensures r == "" || (!IsBlank(r[0]) && !IsBlank(r[|r| - 1]))
    ensures exists lo :: TrimmedAt(s, lo, r)
  {
    var t := TrimStart(s);
    var r := TrimEnd(t);
    TrimIsInfix(s, t, r);
    r
  }

  lemma PrefixHead<T>(t: seq<T>, r: seq<T>)
    requires 0 < |r| <= |t| && r == t[..|r|]
    ensures r[0] == t[0]
  {
  }

  lemma TrimIsInfix(s: string, t: string, r: string)
    requires |t| <= |s| && t == s[|s| - |t|..] && AllBlank(s[..|s| - |t|])
    requires |r| <= |t| && r == t[..|r|] && AllBlank(t[|r|..])
    requires t == "" || !IsBlank(t[0])
    requires r == "" || !IsBlank(r[|r| - 1])
    ensures r == "" || (!IsBlank(r[0]) && !IsBlank(r[|r| - 1]))
    ensures TrimmedAt(s, |s| - |t|, r)
  {
    if r != "" {
      PrefixHead(t, r);
    }
    var lo := |s| - |t|;
    assert s[lo..lo + |r|] == t[..|r|];
    assert s[lo + |r|..] == t[|r|..];
  }

  /** A string of blanks trims to the empty string. */
  lemma TrimBlank(s: string)
    requires AllBlank(s)
    ensures Trim(s) == ""
  {
    var r := Trim(s);
    var lo :| TrimmedAt(s, lo, r);
    BlankInfix(s, lo, r);
  }

  lemma BlankInfix(s: string, lo: int, r: string)
    requires AllBlank(s) && TrimmedAt(s, lo, r)
    ensures AllBlank(r)
  {
    assert forall i :: 0 <= i < |r| ==> r[i] == s[lo + i];
  }

  /** A string with no blank at either end is its own trim. */
  lemma TrimUnpadded(s: string)
    requires s == "" || (!IsBlank(s[0]) && !IsBlank(s[|s| - 1]))
    ensures Trim(s) == s
  {
    assert TrimStart(s) == s;
    assert TrimEnd(s) == s;
  }

  /** Trimming twice is trimming once. */
  lemma TrimIdempotent(s: string)
    ensures Trim(Trim(s)) == Trim(s)
  {
    TrimUnpadded(Trim(s));
  }

  /** ASCII upper case to lower case; every other char is kept. */
  function LowerChar(c: char): (l: char)
    ensures !('A' <= l <= 'Z')
    ensures c != l ==> 'A' <= c <= 'Z'
  {
    if 'A' <= c <= 'Z' then (c as int + 32) as char else c
  }

  /** `String.toLowerCase`, restricted to ASCII letters. */
  function ToLower(s: string): (r: string)
    ensures |r| == |s|
    ensures forall i :: 0 <= i < |s| ==> r[i] == LowerChar(s[i])
  {
    if s == "" then "" else [LowerChar(s[0])] + ToLower(s[1..])
  }

  /** `String.equalsIgnoreCase`, restricted to ASCII letters: same length, and equal chars after lower-casing. */
  predicate EqualsIgnoreCase(a: string, b: string)
    ensures EqualsIgnoreCase(a, b) <==> |a| == |b| && forall i :: 0 <= i < |a| ==> LowerChar(a[i]) == LowerChar(b[i])
  {
    ToLower(a) == ToLower(b)
  }

  /** `String.startsWith`. */
  predicate StartsWith(s: string, prefix: string)
  {
    |prefix| <= |s| && s[..|prefix|] == prefix
  }

  lemma ConcatAssoc<T>(a: seq<T>, b: seq<T>, c: seq<T>)
    ensures a + b + c == a + (b + c)
  {
  }

  /** A head put in front of `b + r` becomes part of the first piece. */
  lemma ConsConcat<T>(a: seq<T>, x: T, t: seq<T>, b: seq<T>, r: seq<T>, d: seq<T>)
    requires a == [x] + t && t == b + r && [x] + b == d
    ensures a == d + r
  {
  }

  lemma ConcatRegroup<T>(a: seq<T>, b: seq<T>, c: seq<T>, d: seq<T>)
    ensures a + b + c + d == a + (b + c + d) == a + (b + (c + d))
  {
  }

  lemma EndsWithConcat(p: string, rest: string)
    ensures |rest| <= |p + rest| && (p + rest)[|p + rest| - |rest|..] == rest
  {
  }

  lemma StartsWithConcat(p: string, rest: string)
    ensures StartsWith(p + rest, p) && (p + rest)[|p|..] == rest
  {
    assert (p + rest)[..|p|] == p;
  }

  /** A string starts with `prefix` exactly when it is `prefix` followed by some rest. */
  lemma StartsWithIsPrefix(s: string, prefix: string)
    ensures StartsWith(s, prefix) <==> exists rest :: s == prefix + rest
  {
    if StartsWith(s, prefix) {
      assert s == prefix + s[|prefix|..];
    }
    if exists rest :: s == prefix + rest {
      var rest :| s == prefix + rest;
      StartsWithConcat(prefix, rest);
    }
  }

  predicate OccursAt(s: string, pat: string, i: int) {
    0 <= i && i + |pat| <= |s| && s[i..i + |pat|] == pat
  }

  /** `String.contains`: the empty pattern is in every string, and no longer one is in a shorter string. */
  predicate Contains(s: string, pat: string)
    ensures pat == "" ==> Contains(s, pat)
    ensures Contains(s, pat) ==> |pat| <= |s|
  {
    assert pat == "" ==> OccursAt(s, pat, 0);
    exists i :: 0 <= i <= |s| && OccursAt(s, pat, i)
  }

  lemma OccursInTail(s: string, pat: string)
    requires |s| > 0
    ensures Contains(s[1..], pat) ==> Contains(s, pat)
  {
    if Contains(s[1..], pat) {
      var i :| 0 <= i <= |s[1..]| && OccursAt(s[1..], pat, i);
      assert s[1..][i..i + |pat|] == s[i + 1..i + 1 + |pat|];
      assert OccursAt(s, pat, i + 1);
    }
  }

  /** `pat` occurs at `i` and nowhere before it. */
  predicate FirstOccurrence(s: string, pat: string, i: int) {
    OccursAt(s, pat, i) && forall j :: 0 <= j < i ==> !OccursAt(s, pat, j)
  }

  /** Occurrences in `s[1..]` are the occurrences in `s` after its first char, one place to the left. */
  lemma OccursInTailAt(s: string, pat: string, j: int)
    requires |s| > 0 && 0 < j
    ensures OccursAt(s, pat, j) <==> OccursAt(s[1..], pat, j - 1)
  {
    if j + |pat| <= |s| {
      assert s[1..][j - 1..j - 1 + |pat|] == s[j..j + |pat|];
    }
  }

  /**
   * `String.replace(CharSequence, CharSequence)`: every non-overlapping
   * occurrence of `pat`, scanning left to right, becomes `rep`;
   * ReplaceAllAt states the order.
   */
  function ReplaceAll(s: string, pat: string, rep: string): (r: string)
    requires pat != ""
    ensures !Contains(s, pat) ==> r == s
    ensures forall c :: c in r ==> c in s || c in rep
    decreases |s|
  {
    if |s| < |pat| then s
    else if s[..|pat|] == pat then
      assert OccursAt(s, pat, 0);
      rep + ReplaceAll(s[|pat|..], pat, rep)
    else
      OccursInTail(s, pat);
      [s[0]] + ReplaceAll(s[1..], pat, rep)
  }

  /** Text before `i` in which no occurrence of `pat` starts is kept as it is. */
  lemma {:induction false} ReplaceAllKeepsPrefix(s: string, pat: string, rep: string, i: nat)
    requires pat != "" && i <= |s|
    requires forall j :: 0 <= j < i ==> !OccursAt(s, pat, j)
    ensures ReplaceAll(s, pat, rep) == s[..i] + ReplaceAll(s[i..], pat, rep)
    decreases i
  {
    if i == 0 {
      assert s[..0] == "" && s[0..] == s;
    } else {
      var rest := ReplaceAll(s[i..], pat, rep);
      var tail := ReplaceAll(s[1..], pat, rep);
      ReplaceAllUnmatched(s, pat, rep);
      NoOccurrenceInTail(s, pat, i);
      ReplaceAllKeepsPrefix(s[1..], pat, rep, i - 1);
      TailSlices(s, i);
      ConsConcat(ReplaceAll(s, pat, rep), s[0], tail, s[1..][..i - 1], rest, s[..i]);
    }
  }

  lemma NoOccurrenceInTail(s: string, pat: string, i: nat)
    requires 0 < i <= |s|
    requires forall j :: 0 <= j < i ==> !OccursAt(s, pat, j)
    ensures forall j :: 0 <= j < i - 1 ==> !OccursAt(s[1..], pat, j)
  {
    forall j | 0 <= j < i - 1
      ensures !OccursAt(s[1..], pat, j)
    {
      OccursInTailAt(s, pat, j + 1);
    }
  }

  lemma TailSlices<T>(s: seq<T>, i: nat)
    requires 0 < i <= |s|
    ensures s[1..][i - 1..] == s[i..] && [s[0]] + s[1..][..i - 1] == s[..i]
  {
  }

  /**
   * Replacing is left to right: when the first occurrence of `pat` is at `i`,
   * the text before it is kept, that occurrence becomes `rep`, and replacing
   * goes on after it.
   */
  lemma ReplaceAllAt(s: string, pat: string, rep: string, i: nat)
    requires pat != "" && FirstOccurrence(s, pat, i)
    ensures ReplaceAll(s, pat, rep) == s[..i] + rep + ReplaceAll(s[i + |pat|..], pat, rep)
  {
    var rest := ReplaceAll(s[i + |pat|..], pat, rep);
    assert ReplaceAll(s, pat, rep) == s[..i] + ReplaceAll(s[i..], pat, rep) by {
      ReplaceAllKeepsPrefix(s, pat, rep, i);
    }
    assert ReplaceAll(s[i..], pat, rep) == rep + rest by {
      assert s[i..][..|pat|] == pat;
      assert s[i..][|pat|..] == s[i + |pat|..];
    }
    ConcatAssoc(s[..i], rep, rest);
  }

  /** Replacing starts at the leftmost occurrence: a leading `pat` becomes `rep`. */
  lemma ReplaceAllLeading(pat: string, t: string, rep: string)
    requires pat != ""
    ensures ReplaceAll(pat + t, pat, rep) == rep + ReplaceAll(t, pat, rep)
  {
    assert (pat + t)[..|pat|] == pat;
    assert (pat + t)[|pat|..] == t;
  }

  /** Where no occurrence starts at the first char, that char is kept. */
  lemma ReplaceAllUnmatched(s: string, pat: string, rep: string)
    requires pat != "" && s != "" && !OccursAt(s, pat, 0)
    ensures ReplaceAll(s, pat, rep) == [s[0]] + ReplaceAll(s[1..], pat, rep)
  {
    if |pat| <= |s| {
      assert s[0..|pat|] == s[..|pat|];
    }
  }

  /** Number of occurrences of `c` in `s`. */
  function CountChar(s: string, c: char): (n: nat)
    ensures n == 0 <==> c !in s
    ensures n <= |s|
  {
    if s == "" then 0 else (if s[0] == c then 1 else 0) + CountChar(s[1..], c)
  }

  lemma {:induction false} CountCharAppend(a: string, b: string, c: char)
    ensures CountChar(a + b, c) == CountChar(a, c) + CountChar(b, c)
  {
    if a == "" {
      assert a + b == b;
    } else {
      assert (a + b)[1..] == a[1..] + b;
      CountCharAppend(a[1..], b, c);
    }
  }

  /**
   * Every segment of `s` between occurrences of `c`, empty segments included:
   * `n` occurrences give `n + 1` segments.
   */
  function SplitOn(s: string, c: char): (parts: seq<string>)
    ensures |parts| == CountChar(s, c) + 1
    ensures forall i :: 0 <= i < |parts| ==> c !in parts[i]
  {
    if s == "" then [""]
    else
      var rest := SplitOn(s[1..], c);
      if s[0] == c then [""] + rest else [[s[0]] + rest[0]] + rest[1..]
  }

  /** Java's trailing-empty-string removal of `String.split` without a limit. */
  function DropTrailingEmpty(parts: seq<string>): (r: seq<string>)
    ensures |r| <= |parts| && r == parts[..|r|]
    ensures r == [] || r[|r| - 1] != ""
    ensures forall i :: |r| <= i < |parts| ==> parts[i] == ""
  {
    if parts != [] && parts[|parts| - 1] == "" then DropTrailingEmpty(parts[..|parts| - 1]) else parts
  }

  /**
   * `s.split(regex)` for a regex matching the single char `c`: the string itself
   * when `c` does not occur, otherwise the segments without the trailing empty ones.
   */
  function JavaSplit(s: string, c: char): (parts: seq<string>)
    ensures forall i :: 0 <= i < |parts| ==> c !in parts[i]
    ensures c !in s ==> parts == [s]
    ensures c in s ==> |parts| <= CountChar(s, c) + 1
    ensures c in s ==> parts == [] || parts[|parts| - 1] != ""
    ensures c in s ==> parts == SplitOn(s, c)[..|parts|] &&
                       forall i :: |parts| <= i < |SplitOn(s, c)| ==> SplitOn(s, c)[i] == ""
  {
    if c !in s then [s] else DropTrailingEmpty(SplitOn(s, c))
  }

  /** `f` applied to each element, in order. */
  function Map<A, B>(f: A -> B, s: seq<A>): (r: seq<B>)
    ensures |r| == |s|
    ensures forall i :: 0 <= i < |s| ==> r[i] == f(s[i])
  {
    if s == [] then [] else [f(s[0])] + Map(f, s[1..])
  }

  lemma {:induction false} MapAppend<A, B>(f: A -> B, a: seq<A>, b: seq<A>)
    ensures Map(f, a + b) == Map(f, a) + Map(f, b)
  {
    if a == [] {
      assert a + b == b;
    } else {
      assert (a + b)[1..] == a[1..] + b;
      MapAppend(f, a[1..], b);
    }
  }

  /** The parts separated by `sep`, in order, as `StringBuilder` appends them. */
  function Join(parts: seq<string>, sep: string): (r: string)
    ensures parts == [] ==> r == ""
    ensures |parts| == 1 ==> r == parts[0]
    ensures |parts| > 0 ==> StartsWith(r, parts[0])
  {
    if |parts| == 0 then ""
    else if |parts| == 1 then parts[0]
    else parts[0] + sep + Join(parts[1..], sep)
  }

  /** Appending one more part appends one separator and the part. */
  lemma {:induction false} JoinSnoc(parts: seq<string>, p: string, sep: string)
    requires |parts| > 0
    ensures Join(parts + [p], sep) == Join(parts, sep) + sep + p
  {
    if |parts| > 1 {
      assert (parts + [p])[1..] == parts[1..] + [p];
      JoinSnoc(parts[1..], p, sep);
    }
  }

  /** Splitting on `c` and joining the segments with `c` gives back the string. */
  lemma {:induction false} JoinSplitOn(s: string, c: char)
    ensures Join(SplitOn(s, c), [c]) == s
  {
    if s != "" {
      var rest := SplitOn(s[1..], c);
      JoinSplitOn(s[1..], c);
      if s[0] == c {
        assert ([""] + rest)[1..] == rest;
      } else {
        var parts := [[s[0]] + rest[0]] + rest[1..];
        assert Join(parts, [c]) == [s[0]] + Join(rest, [c]) by {
          if |rest| > 1 {
            assert parts[1..] == rest[1..];
            ConcatRegroup([s[0]], rest[0], [c], Join(rest[1..], [c]));
          }
        }
        assert s == [s[0]] + s[1..];
      }
    }
  }

  lemma {:induction false} SplitOnNoSeparator(a: string, c: char)
    requires c !in a
    ensures SplitOn(a, c) == [a]
  {
    if a != "" {
      SplitOnNoSeparator(a[1..], c);
      assert a == [a[0]] + a[1..];
    }
  }

  lemma {:induction false} SplitOnCons(a: string, c: char, rest: string)
    requires c !in a
    ensures SplitOn(a + [c] + rest, c) == [a] + SplitOn(rest, c)
  {
    if a == "" {
      assert a + [c] + rest == [c] + rest;
      assert ([c] + rest)[1..] == rest;
    } else {
      var s := a + [c] + rest;
      var r := SplitOn(s[1..], c);
      assert r == [a[1..]] + SplitOn(rest, c) by {
        assert s[1..] == a[1..] + [c] + rest;
        SplitOnCons(a[1..], c, rest);
      }
      assert s[0] == a[0] != c;
      assert SplitOn(s, c) == [[a[0]] + r[0]] + r[1..];
      assert [a[0]] + r[0] == a;
    }
  }

  /** Joining `c`-free parts with `c` and splitting on `c` gives back the parts. */
  lemma {:induction false} SplitOnJoin(parts: seq<string>, c: char)
    requires |parts| > 0
    requires forall i :: 0 <= i < |parts| ==> c !in parts[i]
    ensures SplitOn(Join(parts, [c]), c) == parts
  {
    if |parts| == 1 {
      SplitOnNoSeparator(parts[0], c);
    } else {
      SplitOnJoin(parts[1..], c);
      SplitOnCons(parts[0], c, Join(parts[1..], [c]));
      assert parts == [parts[0]] + parts[1..];
    }
  }

  /** The last segment is empty exactly when `s` is empty or ends with `c`. */
  lemma {:induction false} SplitOnLast(s: string, c: char)
    ensures var parts := SplitOn(s, c);
            parts[|parts| - 1] == "" <==> s == "" || s[|s| - 1] == c
  {
    if s != "" {
      var rest := SplitOn(s[1..], c);
      SplitOnLast(s[1..], c);
      if s[1..] != "" {
        assert s[1..][|s[1..]| - 1] == s[|s| - 1];
      }
    }
  }

  /**
   * A string that does not end with `c` is recovered by joining its Java split
   * with `c`: nothing is dropped.
   */
  lemma JavaSplitJoin(s: string, c: char)
    requires s == "" || s[|s| - 1] != c
    ensures Join(JavaSplit(s, c), [c]) == s
  {
    if c in s {
      SplitOnLast(s, c);
      JoinSplitOn(s, c);
    }
  }

  /**
   * Java's split of a join of two or more `c`-free parts, the last one not
   * empty, gives back the parts.
   */
  lemma JavaSplitOfJoin(parts: seq<string>, c: char)
    requires |parts| > 1
    requires forall i :: 0 <= i < |parts| ==> c !in parts[i]
    requires parts[|parts| - 1] != ""
    ensures c in Join(parts, [c])
    ensures JavaSplit(Join(parts, [c]), c) == parts
  {
    var s := Join(parts, [c]);
    assert c in s by {
      assert s == parts[0] + [c] + Join(parts[1..], [c]);
      assert s[|parts[0]|] == c;
    }
    assert SplitOn(s, c) == parts by {
      SplitOnJoin(parts, c);
    }
    assert DropTrailingEmpty(parts) == parts;
  }

  /** A separator at the end adds one empty segment. */
  lemma {:induction false} SplitOnSnoc(s: string, c: char)
    ensures SplitOn(s + [c], c) == SplitOn(s, c) + [""]
  {
    if s == "" {
      assert s + [c] == [c];
      assert [c][1..] == "";
    } else {
      assert (s + [c])[1..] == s[1..] + [c];
      SplitOnSnoc(s[1..], c);
    }
  }

  /**
   * Java drops trailing empty parts: once `c` occurs, a separator appended at
   * the end changes nothing.
   */
  lemma JavaSplitTrailingSeparator(s: string, c: char)
    requires c in s
    ensures JavaSplit(s + [c], c) == JavaSplit(s, c)
  {
    var segments := SplitOn(s, c);
    assert c in s + [c];
    SplitOnSnoc(s, c);
    assert DropTrailingEmpty(segments + [""]) == DropTrailingEmpty(segments) by {
      var padded := segments + [""];
      assert padded[..|padded| - 1] == segments;
    }
  }

  /** The single-char pattern `[c]` is contained exactly when `c` occurs. */
  lemma ContainsChar(s: string, c: char)
    ensures Contains(s, [c]) <==> c in s
  {
    if c in s {
      var i :| 0 <= i < |s| && s[i] == c;
      assert OccursAt(s, [c], i);
    }
    if Contains(s, [c]) {
      var i :| 0 <= i <= |s| && OccursAt(s, [c], i);
      assert s[i..i + 1][0] == s[i];
    }
  }

  /** In a join of `+`-free parts with `" + "`, the `+` chars are the separators. */
  lemma {:induction false} JoinPlusCount(parts: seq<string>)
    requires |parts| > 0
    requires forall i :: 0 <= i < |parts| ==> '+' !in parts[i]
    ensures CountChar(Join(parts, " + "), '+') == |parts| - 1
  {
    if |parts| > 1 {
      JoinPlusCount(parts[1..]);
      CountCharAppend(parts[0] + " + ", Join(parts[1..], " + "), '+');
      CountCharAppend(parts[0], " + ", '+');
    }
  }

  lemma {:induction false} ToLowerIdempotent(s: string)
    ensures ToLower(ToLower(s)) == ToLower(s)
  {
    var l := ToLower(s);
    assert forall i :: 0 <= i < |s| ==> ToLower(l)[i] == LowerChar(LowerChar(s[i]));
  }
}
