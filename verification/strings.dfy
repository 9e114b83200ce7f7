/** The Python `str` operations the letter generator relies on, over `seq<char>`:
    `isspace`, `strip`, `in`, `replace` (all occurrences and first only),
    `split` and `join`. */
module Strings {

  /** Python's `str.isspace()`; a `\s` in a `re` pattern over `str` matches the same characters. */
  predicate IsSpace(c: char) {
    || c == ' ' || c == '\t' || c == '\n' || c == '\r'
    || c == '\U{B}' || c == '\U{C}'
    || ('\U{1C}' <= c <= '\U{1F}')
    || c == '\U{85}' || c == '\U{A0}' || c == '\U{1680}'
    || ('\U{2000}' <= c <= '\U{200A}')
    || c == '\U{2028}' || c == '\U{2029}' || c == '\U{202F}' || c == '\U{205F}' || c == '\U{3000}'
  }

  /** Slicing facts, proved once away from any whitespace reasoning. */
  lemma DropAppend<T>(a: seq<T>, b: seq<T>, k: nat)
    requires k <= |a|
    ensures (a + b)[k..] == a[k..] + b
  {
  }

  lemma TakeAppend<T>(a: seq<T>, b: seq<T>)
    ensures (a + b)[..|a|] == a
  {
  }

  lemma TakeDrop<T>(a: seq<T>, k: nat)
    requires k <= |a|
    ensures a[..k] + a[k..] == a
  {
  }

  lemma AppendEmpty<T>(a: seq<T>)
    ensures a + [] == a
  {
  }

  lemma AppendAssoc<T>(a: seq<T>, b: seq<T>, c: seq<T>)
    ensures (a + b) + c == a + (b + c)
  {
  }

  lemma ConsTail<T>(a: seq<T>)
    requires a != []
    ensures a == [a[0]] + a[1..]
  {
  }

  predicate AllSpace(s: string) {
    forall i :: 0 <= i < |s| ==> IsSpace(s[i])
  }

  predicate NoSpace(s: string) {
    forall i :: 0 <= i < |s| ==> !IsSpace(s[i])
  }

  /** Neither starts nor ends with whitespace. */
  predicate Stripped(s: string) {
    s == [] || (!IsSpace(s[0]) && !IsSpace(s[|s| - 1]))
  }

  /** Python's `str.lstrip()`. */
  function TrimStart(s: string): (r: string)
    ensures |r| <= |s| && r == s[|s| - |r|..]
    ensures AllSpace(s[..|s| - |r|])
    ensures r == [] || !IsSpace(r[0])
  {
    if s != [] && IsSpace(s[0]) then TrimStart(s[1..]) else s
  }

  /** Python's `str.rstrip()`. */
  function TrimEnd(s: string): (r: string)
    ensures |r| <= |s| && r == s[..|r|]
    ensures AllSpace(s[|r|..])
    ensures r == [] || !IsSpace(r[|r| - 1])
  {
    if s != [] && IsSpace(s[|s| - 1]) then
      var r := TrimEnd(s[..|s| - 1]);
      SpaceSuffixSnoc(s, |r|);
      r
    else s
  }

  /** One trailing whitespace character after a whitespace suffix. */
  lemma SpaceSuffixSnoc(s: string, k: nat)
    requires k <= |s| - 1 && IsSpace(s[|s| - 1]) && AllSpace(s[..|s| - 1][k..])
    ensures AllSpace(s[k..]) && s[..|s| - 1][..k] == s[..k]
  {
    forall i | 0 <= i < |s| - k
      ensures IsSpace(s[k..][i])
    {
      if i < |s| - 1 - k {
        assert s[k..][i] == s[..|s| - 1][k..][i];
      }
    }
  }

  /** Python's `str.strip()`: the result is the part of `s` left once the leading
      and the trailing whitespace are cut off. */
  function Strip(s: string): (r: string)
    ensures Stripped(r)
    ensures exists i :: Framed(s, r, i)
  {
    var t := TrimStart(s);
    var r := TrimEnd(t);
    InnerSlice(s, t, r);
    r
  }

  /** `r` is the slice of `s` that starts at `i`, and everything of `s` before
      and after it is whitespace. */
  predicate Framed(s: string, r: string, i: int) {
    0 <= i <= |s| - |r| && r == s[i..i + |r|] && AllSpace(s[..i]) && AllSpace(s[i + |r|..])
  }

  /** A prefix `r` of a suffix `t` of `s`, with only whitespace cut off on
      either side, is a slice of `s` framed by whitespace. */
  lemma InnerSlice(s: string, t: string, r: string)
    requires |t| <= |s| && t == s[|s| - |t|..] && AllSpace(s[..|s| - |t|])
    requires |r| <= |t| && r == t[..|r|] && AllSpace(t[|r|..])
    ensures Framed(s, r, |s| - |t|)
  {
    var i := |s| - |t|;
    assert s[i + |r|..] == t[|r|..];
  }

  predicate StartsWith(s: string, prefix: string) {
    |prefix| <= |s| && s[..|prefix|] == prefix
  }

  predicate OccursAt(s: string, pat: string, i: int) {
    0 <= i && i + |pat| <= |s| && s[i..i + |pat|] == pat
  }

  /** Python's `pat in s`. */
  predicate Contains(s: string, pat: string) {
    exists i :: 0 <= i <= |s| - |pat| && OccursAt(s, pat, i)
  }

  lemma OccursAtTail(s: string, pat: string, i: int)
    requires s != [] && 1 <= i
    ensures OccursAt(s, pat, i) <==> OccursAt(s[1..], pat, i - 1)
  {
    if 0 <= i - 1 && i - 1 + |pat| <= |s| - 1 {
      assert s[1..][i - 1..i - 1 + |pat|] == s[i..i + |pat|];
    }
  }

  /** `pat` occurs in `s` exactly when it starts `s` or occurs in the rest of `s`. */
  lemma ContainsStep(s: string, pat: string)
    requires s != []
    ensures Contains(s, pat) <==> StartsWith(s, pat) || Contains(s[1..], pat)
  {
    if Contains(s, pat) && !StartsWith(s, pat) {
      var i :| 0 <= i <= |s| - |pat| && OccursAt(s, pat, i);
      assert i != 0;
      OccursAtTail(s, pat, i);
    }
    if StartsWith(s, pat) {
      assert OccursAt(s, pat, 0);
    }
    if Contains(s[1..], pat) {
      var i :| 0 <= i <= |s| - 1 - |pat| && OccursAt(s[1..], pat, i);
      OccursAtTail(s, pat, i + 1);
    }
  }

  /** `s.replace("", sub)` in Python puts `sub` before every character and at the end. */
  function Interleave(s: string, sub: string): string
  {
    if s == [] then sub else sub + [s[0]] + Interleave(s[1..], sub)
  }

  /** Python's `s.replace(pat, sub)`: scanning left to right, every occurrence
      of `pat` is replaced by `sub` and the scan resumes after it, so the
      occurrences replaced never overlap. */
  function ReplaceAll(s: string, pat: string, sub: string): string
    decreases |s|
  {
    if pat == [] then Interleave(s, sub)
    else if s == [] then []
    else if StartsWith(s, pat) then sub + ReplaceAll(s[|pat|..], pat, sub)
    else [s[0]] + ReplaceAll(s[1..], pat, sub)
  }

  /** A string in which `pat` does not occur is left as it is. */
  lemma {:induction false} ReplaceAllAbsent(s: string, pat: string, sub: string)
    requires !Contains(s, pat)
    ensures ReplaceAll(s, pat, sub) == s
    decreases |s|
  {
    if pat == [] {
      assert OccursAt(s, pat, 0);
    } else if s != [] {
      ContainsStep(s, pat);
      ReplaceAllAbsent(s[1..], pat, sub);
      assert s == [s[0]] + s[1..];
    }
  }

  lemma ContainsCons(c: char, s: string, pat: string)
    requires Contains(s, pat)
    ensures Contains([c] + s, pat)
  {
    var i :| 0 <= i <= |s| - |pat| && OccursAt(s, pat, i);
    assert ([c] + s)[1..] == s;
    OccursAtTail([c] + s, pat, i + 1);
  }

  lemma ContainsPrefix(a: string, b: string)
    ensures Contains(a + b, a)
  {
    TakeAppend(a, b);
    assert OccursAt(a + b, a, 0);
  }

  /** When `pat` occurs, the replacement text shows up in the result. */
  lemma {:induction false} ReplaceAllInserts(s: string, pat: string, sub: string)
    requires pat != [] && Contains(s, pat)
    ensures Contains(ReplaceAll(s, pat, sub), sub)
    decreases |s|
  {
    assert s != [];
    ContainsStep(s, pat);
    if StartsWith(s, pat) {
      ContainsPrefix(sub, ReplaceAll(s[|pat|..], pat, sub));
    } else {
      ReplaceAllInserts(s[1..], pat, sub);
      ContainsCons(s[0], ReplaceAll(s[1..], pat, sub), sub);
    }
  }

  /** Python's `s.replace(pat, sub, 1)`: only the first occurrence is replaced. */
  function ReplaceFirst(s: string, pat: string, sub: string): string
    decreases |s|
  {
    if StartsWith(s, pat) then sub + s[|pat|..]
    else if s == [] then []
    else [s[0]] + ReplaceFirst(s[1..], pat, sub)
  }

  /** Python's `s.split(sep)` for a non-empty separator (an empty one raises):
      the pieces between the occurrences that a left-to-right scan finds. */
  function Split(s: string, sep: string): (parts: seq<string>)
    requires sep != []
    ensures |parts| >= 1 && StartsWith(s, parts[0])
    decreases |s|
  {
    if s == [] then [[]]
    else if StartsWith(s, sep) then [[]] + Split(s[|sep|..], sep)
    else
      var rest := Split(s[1..], sep);
      [[s[0]] + rest[0]] + rest[1..]
  }

  /** The split is taken at the leftmost occurrence: there is more than one
      piece exactly when the separator occurs, and then the first piece ends
      where the first occurrence starts. */
  lemma {:induction false} SplitLeftmost(s: string, sep: string)
    requires sep != []
    ensures |Split(s, sep)| > 1 <==> Contains(s, sep)
    ensures |Split(s, sep)| > 1 ==> OccursAt(s, sep, |Split(s, sep)[0]|)
    ensures forall i :: 0 <= i < |Split(s, sep)[0]| ==> !OccursAt(s, sep, i)
    decreases |s|
  {
    var parts := Split(s, sep);
    if s == [] {
    } else if StartsWith(s, sep) {
      assert OccursAt(s, sep, 0);
    } else {
      var rest := Split(s[1..], sep);
      SplitLeftmost(s[1..], sep);
      assert |parts| == |rest| && |parts[0]| == |rest[0]| + 1;
      ContainsStep(s, sep);
      if |rest| > 1 {
        OccursAtTail(s, sep, |rest[0]| + 1);
      }
      forall i | 0 <= i < |parts[0]|
        ensures !OccursAt(s, sep, i)
      {
        if i > 0 {
          OccursAtTail(s, sep, i);
        }
      }
    }
  }

  /** Python's `sep.join(parts)`. */
  function Join(sep: string, parts: seq<string>): string
  {
    if parts == [] then []
    else if |parts| == 1 then parts[0]
    else parts[0] + sep + Join(sep, parts[1..])
  }

  lemma JoinCons(sep: string, p: string, parts: seq<string>)
    requires parts != []
    ensures Join(sep, [p] + parts) == p + sep + Join(sep, parts)
  {
    assert ([p] + parts)[1..] == parts;
  }

  /** Putting a character in front of the first piece puts it in front of the joined string. */
  lemma JoinPrepend(sep: string, c: char, parts: seq<string>)
    requires parts != []
    ensures Join(sep, [[c] + parts[0]] + parts[1..]) == [c] + Join(sep, parts)
  {
    if |parts| > 1 {
      JoinCons(sep, [c] + parts[0], parts[1..]);
      JoinCons(sep, parts[0], parts[1..]);
      assert parts == [parts[0]] + parts[1..];
    }
  }

  /** Joining the pieces of a split with the separator gives back the string. */
  lemma {:induction false} JoinSplit(s: string, sep: string)
    requires sep != []
    ensures Join(sep, Split(s, sep)) == s
    decreases |s|
  {
    if s == [] {
    } else if StartsWith(s, sep) {
      var rest := s[|sep|..];
      assert Split(s, sep) == [[]] + Split(rest, sep);
      JoinSplit(rest, sep);
      JoinCons(sep, [], Split(rest, sep));
      TakeDrop(s, |sep|);
    } else {
      var parts := Split(s[1..], sep);
      assert Split(s, sep) == [[s[0]] + parts[0]] + parts[1..];
      JoinSplit(s[1..], sep);
      JoinPrepend(sep, s[0], parts);
      ConsTail(s);
    }
  }

  /** No piece of a split contains the separator. */
  lemma {:induction false} SplitPiecesFree(s: string, sep: string)
    requires sep != []
    ensures forall k :: 0 <= k < |Split(s, sep)| ==> !Contains(Split(s, sep)[k], sep)
    decreases |s|
  {
    if s == [] {
      assert !OccursAt([], sep, 0);
    } else if StartsWith(s, sep) {
      SplitPiecesFree(s[|sep|..], sep);
      assert !OccursAt([], sep, 0);
    } else {
      var rest := Split(s[1..], sep);
      SplitPiecesFree(s[1..], sep);
      var head := [s[0]] + rest[0];
      assert head[1..] == rest[0];
      ContainsStep(head, sep);
    }
  }

  /** `s.replace(pat, sub) == sub.join(s.split(pat))`: replacement is splitting
      at every occurrence and gluing the pieces back with the new text. */
  lemma {:induction false} ReplaceAllIsJoinSplit(s: string, pat: string, sub: string)
    requires pat != []
    ensures ReplaceAll(s, pat, sub) == Join(sub, Split(s, pat))
    decreases |s|
  {
    if s == [] {
    } else if StartsWith(s, pat) {
      var rest := s[|pat|..];
      var parts := Split(rest, pat);
      assert Split(s, pat) == [[]] + parts;
      ReplaceAllIsJoinSplit(rest, pat, sub);
      JoinCons(sub, [], parts);
      calc {
        ReplaceAll(s, pat, sub);
        sub + ReplaceAll(rest, pat, sub);
        sub + Join(sub, parts);
        { assert [] + sub == sub; }
        [] + sub + Join(sub, parts);
        Join(sub, [[]] + parts);
      }
    } else {
      var parts := Split(s[1..], pat);
      assert Split(s, pat) == [[s[0]] + parts[0]] + parts[1..];
      ReplaceAllIsJoinSplit(s[1..], pat, sub);
      JoinPrepend(sub, s[0], parts);
      calc {
        ReplaceAll(s, pat, sub);
        [s[0]] + ReplaceAll(s[1..], pat, sub);
        [s[0]] + Join(sub, parts);
        Join(sub, [[s[0]] + parts[0]] + parts[1..]);
      }
    }
  }

  /** `s` with every occurrence of the character `c` replaced by `t`, one character at a time. */
  function SubstChar(s: string, c: char, t: string): string
  {
    if s == [] then [] else (if s[0] == c then t else [s[0]]) + SubstChar(s[1..], c, t)
  }

  lemma {:induction false} SubstCharAppend(a: string, b: string, c: char, t: string)
    ensures SubstChar(a + b, c, t) == SubstChar(a, c, t) + SubstChar(b, c, t)
  {
    if a == [] {
      assert a + b == b;
    } else {
      assert (a + b)[1..] == a[1..] + b;
      SubstCharAppend(a[1..], b, c, t);
    }
  }

  lemma {:induction false} SubstCharAbsent(s: string, c: char, t: string)
    requires c !in s
    ensures SubstChar(s, c, t) == s
  {
    if s != [] {
      SubstCharAbsent(s[1..], c, t);
      assert s == [s[0]] + s[1..];
    }
  }

  lemma ContainsChar(s: string, c: char)
    ensures Contains(s, [c]) <==> c in s
  {
    if c in s {
      var i :| 0 <= i < |s| && s[i] == c;
      assert s[i..i + 1] == [c];
      assert OccursAt(s, [c], i);
    }
    if Contains(s, [c]) {
      var i :| 0 <= i <= |s| - 1 && OccursAt(s, [c], i);
      assert s[i] == s[i..i + 1][0];
    }
  }

  /** Python's `s.replace(c, t)` for a one-character `c` is the character-wise substitution. */
  lemma {:induction false} ReplaceCharIsSubst(s: string, c: char, t: string)
    ensures ReplaceAll(s, [c], t) == SubstChar(s, c, t)
    decreases |s|
  {
    if s != [] {
      ReplaceCharIsSubst(s[1..], c, t);
      assert StartsWith(s, [c]) <==> s[0] == c;
    }
  }
}
