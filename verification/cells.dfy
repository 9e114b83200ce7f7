/** Cell values: the clean-up applied to every text column, and `clean_value`,
    which reads one optional cell as a string. */
module Cells {
  import opened Wrappers
  import opened Strings

  /** `re.sub(r'\s+', ' ', s)`: every maximal run of whitespace becomes one space. */
  function CollapseSpaces(s: string): string
    decreases |s|
  {
    if s == [] then []
    else if IsSpace(s[0]) then
      var t := TrimStart(s);
      assert t == [] || t[0] != s[0];
      " " + CollapseSpaces(t)
    else
      [s[0]] + CollapseSpaces(s[1..])
  }

  /** The collapse is empty only for the empty string, and it has the same
      kind of character (whitespace or not) at each end as its input. */
  lemma {:induction false} CollapseEnds(s: string)
    ensures CollapseSpaces(s) == [] <==> s == []
    ensures CollapseSpaces(s) != [] ==> (IsSpace(CollapseSpaces(s)[0]) <==> IsSpace(s[0]))
    ensures CollapseSpaces(s) != [] ==>
      (IsSpace(CollapseSpaces(s)[|CollapseSpaces(s)| - 1]) <==> IsSpace(s[|s| - 1]))
    decreases |s|
  {
    if s == [] {
    } else if IsSpace(s[0]) {
      var t := TrimStart(s);
      assert t == [] || t[0] != s[0];
      CollapseEnds(t);
      if t == [] {
        assert s[..|s|] == s;
      }
    } else {
      CollapseEnds(s[1..]);
    }
  }

  /** The only whitespace the collapse leaves is single plain spaces. */
  lemma {:induction false} CollapseSpacing(s: string)
    ensures forall i :: 0 <= i < |CollapseSpaces(s)| && IsSpace(CollapseSpaces(s)[i]) ==> CollapseSpaces(s)[i] == ' '
    ensures SingleSpaced(CollapseSpaces(s))
    decreases |s|
  {
    if s == [] {
    } else if IsSpace(s[0]) {
      var t := TrimStart(s);
      assert t == [] || t[0] != s[0];
      CollapseSpacing(t);
      CollapseEnds(t);
    } else {
      CollapseSpacing(s[1..]);
      CollapseEnds(s[1..]);
    }
  }

  /** `re.sub(r'\n|\r', ' ', s)`: each line feed and carriage return becomes a space. */
  function ReplaceBreaks(s: string): string
  {
    seq(|s|, i requires 0 <= i < |s| => if s[i] == '\n' || s[i] == '\r' then ' ' else s[i])
  }

  predicate NoBreaks(s: string) {
    '\n' !in s && '\r' !in s
  }

  /** No two whitespace characters stand next to each other. */
  predicate SingleSpaced(s: string) {
    forall i :: 0 <= i < |s| - 1 ==> !(IsSpace(s[i]) && IsSpace(s[i + 1]))
  }

  /** The collapse leaves no line feed or carriage return. */
  lemma CollapseNoBreaks(s: string)
    ensures NoBreaks(CollapseSpaces(s))
  {
    var c := CollapseSpaces(s);
    CollapseSpacing(s);
    forall i | 0 <= i < |c| ensures c[i] != '\n' && c[i] != '\r' {
      if IsSpace(c[i]) {
        assert c[i] == ' ';
      }
    }
  }

  lemma ReplaceBreaksNoBreaks(s: string)
    requires NoBreaks(s)
    ensures ReplaceBreaks(s) == s
  {
  }

  /** The three steps applied to every value of a text column: strip, collapse
      whitespace runs, replace line breaks. */
  function CleanText(s: string): (r: string)
    ensures Stripped(r) && NoBreaks(r) && SingleSpaced(r)
    ensures forall i :: 0 <= i < |r| && IsSpace(r[i]) ==> r[i] == ' '
  {
    var c := CollapseSpaces(Strip(s));
    CollapseEnds(Strip(s));
    CollapseSpacing(Strip(s));
    CollapseNoBreaks(Strip(s));
    ReplaceBreaksNoBreaks(c);
    ReplaceBreaks(c)
  }

  /** The line-break step never changes anything: after the collapse the only
      whitespace left is the plain space. */
  lemma BreakStepRedundant(s: string)
    ensures CleanText(s) == CollapseSpaces(Strip(s))
  {
    CollapseNoBreaks(Strip(s));
    ReplaceBreaksNoBreaks(CollapseSpaces(Strip(s)));
  }

  // ---- reference: Python's " ".join(s.split()) ----

  /** The longest prefix of `s` holding no whitespace. */
  function TakeWord(s: string): (w: string)
    ensures |w| <= |s| && w == s[..|w|] && NoSpace(w)
    ensures |w| == |s| || IsSpace(s[|w|])
    decreases |s|
  {
    if s == [] || IsSpace(s[0]) then [] else [s[0]] + TakeWord(s[1..])
  }

  /** Python's `s.split()` with no separator: the maximal runs of non-whitespace. */
  function Words(s: string): seq<string>
    decreases |s|
  {
    var t := TrimStart(s);
    if t == [] then []
    else
      var w := TakeWord(t);
      assert |w| >= 1;
      [w] + Words(t[|w|..])
  }

  /** A list of words as `split()` yields them: each non-empty, none holding whitespace. */
  predicate WordList(ws: seq<string>) {
    forall k :: 0 <= k < |ws| ==> ws[k] != [] && NoSpace(ws[k])
  }

  lemma WordListCons(w: string, ws: seq<string>)
    requires w != [] && NoSpace(w) && WordList(ws)
    ensures WordList([w] + ws)
  {
    forall k | 1 <= k < |[w] + ws|
      ensures ([w] + ws)[k] != [] && NoSpace(([w] + ws)[k])
    {
      assert ([w] + ws)[k] == ws[k - 1];
    }
  }

  /** Every word is non-empty and holds no whitespace. */
  lemma {:induction false} WordsShape(s: string)
    ensures WordList(Words(s))
    decreases |s|
  {
    var t := TrimStart(s);
    if t != [] {
      var w := TakeWord(t);
      var ws := Words(t[|w|..]);
      assert Words(s) == [w] + ws;
      WordsShape(t[|w|..]);
      WordListCons(w, ws);
    }
  }

  lemma TrimStartNoSpace(s: string)
    requires s == [] || !IsSpace(s[0])
    ensures TrimStart(s) == s
  {
  }

  lemma TrimStartAllSpace(s: string)
    requires AllSpace(s)
    ensures TrimStart(s) == []
  {
  }

  lemma {:induction false} TrimEndKeepsFirst(t: string)
    requires t != [] && !IsSpace(t[0])
    ensures TrimEnd(t) != []
    decreases |t|
  {
    if IsSpace(t[|t| - 1]) {
      TrimEndKeepsFirst(t[..|t| - 1]);
    }
  }

  lemma {:induction false} TrimStartKeepsLast(s: string)
    requires s != [] && !IsSpace(s[|s| - 1])
    ensures TrimStart(s) != [] && TrimStart(s)[|TrimStart(s)| - 1] == s[|s| - 1]
    decreases |s|
  {
    if IsSpace(s[0]) {
      TrimStartKeepsLast(s[1..]);
    }
  }

  /** `s.strip()` is empty exactly when `s` is all whitespace. */
  lemma StripEmpty(s: string)
    ensures Strip(s) == [] <==> AllSpace(s)
  {
    var t := TrimStart(s);
    if t == [] {
      assert s[..|s|] == s;
    } else {
      assert s[|s| - |t|] == t[0];
      TrimEndKeepsFirst(t);
    }
  }

  lemma WordsTrimStart(s: string)
    ensures Words(TrimStart(s)) == Words(s)
  {
    TrimStartNoSpace(TrimStart(s));
  }

  /** A prefix without whitespace passes through the collapse unchanged. */
  lemma {:induction false} CollapseWordPrefix(w: string, rest: string)
    requires NoSpace(w)
    ensures CollapseSpaces(w + rest) == w + CollapseSpaces(rest)
  {
    if w == [] {
      assert w + rest == rest;
    } else {
      var s := w + rest;
      assert s[0] == w[0] && !IsSpace(s[0]);
      assert s[1..] == w[1..] + rest;
      CollapseWordPrefix(w[1..], rest);
      calc {
        CollapseSpaces(s);
        [w[0]] + CollapseSpaces(w[1..] + rest);
        [w[0]] + (w[1..] + CollapseSpaces(rest));
        ([w[0]] + w[1..]) + CollapseSpaces(rest);
        { assert w == [w[0]] + w[1..]; }
        w + CollapseSpaces(rest);
      }
    }
  }

  /** After a word of a stripped string, the rest is a run of whitespace
      followed by another stripped, non-empty string. */
  lemma AfterWord(rest: string, last: char)
    requires rest != [] && IsSpace(rest[0])
    requires rest[|rest| - 1] == last && !IsSpace(last)
    ensures CollapseSpaces(rest) == " " + CollapseSpaces(TrimStart(rest))
    ensures TrimStart(rest) != [] && Stripped(TrimStart(rest))
    ensures |TrimStart(rest)| < |rest|
    ensures Words(TrimStart(rest)) == Words(rest)
  {
    TrimStartKeepsLast(rest);
    WordsTrimStart(rest);
  }

  /** A stripped string splits as its first word and the rest. */
  lemma FirstWord(s: string)
    requires Stripped(s) && s != []
    ensures Words(s) == [TakeWord(s)] + Words(s[|TakeWord(s)|..])
    ensures CollapseSpaces(s) == TakeWord(s) + CollapseSpaces(s[|TakeWord(s)|..])
  {
    var w := TakeWord(s);
    TrimStartNoSpace(s);
    TakeDrop(s, |w|);
    CollapseWordPrefix(w, s[|w|..]);
  }

  /** The last word of a stripped string. */
  lemma CollapseOneWord(s: string)
    requires Stripped(s) && s != [] && |TakeWord(s)| == |s|
    ensures CollapseSpaces(s) == Join(" ", Words(s))
  {
    var w := TakeWord(s);
    FirstWord(s);
    assert s[|w|..] == [];
    WordsEmpty();
    calc {
      CollapseSpaces(s);
      w + CollapseSpaces([]);
      { AppendEmpty(w); }
      w;
      Join(" ", [w]);
      { AppendEmpty([w]); }
      Join(" ", [w] + Words([]));
      Join(" ", Words(s));
    }
  }

  /** A stripped string with more than one word, given the claim for what
      follows the first gap. */
  lemma CollapseMoreWords(s: string)
    requires Stripped(s) && s != [] && |TakeWord(s)| < |s|
    requires IsSpace(s[|TakeWord(s)|])
    requires CollapseSpaces(TrimStart(s[|TakeWord(s)|..])) == Join(" ", Words(TrimStart(s[|TakeWord(s)|..])))
    ensures CollapseSpaces(s) == Join(" ", Words(s))
  {
    var w := TakeWord(s);
    var rest := s[|w|..];
    FirstWord(s);
    AfterWord(rest, s[|s| - 1]);
    var u := TrimStart(rest);
    TrimStartNoSpace(u);
    calc {
      CollapseSpaces(s);
      w + (" " + CollapseSpaces(u));
      w + (" " + Join(" ", Words(u)));
      { AppendAssoc(w, " ", Join(" ", Words(u))); }
      w + " " + Join(" ", Words(u));
      { JoinCons(" ", w, Words(u)); }
      Join(" ", [w] + Words(u));
      Join(" ", Words(s));
    }
  }

  /** On a stripped string the collapse is `" ".join(s.split())`. */
  lemma {:induction false} CollapseStrippedIsJoinWords(s: string)
    requires Stripped(s)
    ensures CollapseSpaces(s) == Join(" ", Words(s))
    decreases |s|
  {
    if s != [] {
      var w := TakeWord(s);
      if |w| == |s| {
        CollapseOneWord(s);
      } else {
        var rest := s[|w|..];
        AfterWord(rest, s[|s| - 1]);
        CollapseStrippedIsJoinWords(TrimStart(rest));
        CollapseMoreWords(s);
      }
    }
  }

  lemma {:induction false} TrimStartAppend(y: string, z: string)
    requires TrimStart(y) != []
    ensures TrimStart(y + z) == TrimStart(y) + z
    decreases |y|
  {
    assert (y + z)[0] == y[0];
    if IsSpace(y[0]) {
      DropAppend(y, z, 1);
      TrimStartAppend(y[1..], z);
    }
  }

  lemma {:induction false} TakeWordAppend(t: string, z: string)
    requires |TakeWord(t)| < |t| || z == [] || IsSpace(z[0])
    ensures TakeWord(t + z) == TakeWord(t)
    decreases |t|
  {
    if t == [] {
      assert t + z == z;
    } else if !IsSpace(t[0]) {
      assert (t + z)[1..] == t[1..] + z;
      TakeWordAppend(t[1..], z);
    }
  }

  lemma {:induction false} TakeWordNoSpace(w: string)
    requires NoSpace(w)
    ensures TakeWord(w) == w
  {
    if w != [] {
      TakeWordNoSpace(w[1..]);
      assert w == [w[0]] + w[1..];
    }
  }

  /** Trailing whitespace adds no word. */
  lemma {:induction false} WordsAppendSpaces(y: string, sp: string)
    requires AllSpace(sp)
    ensures Words(y + sp) == Words(y)
    decreases |y|
  {
    var t := TrimStart(y);
    if t == [] {
      assert y[..|y|] == y;
      assert AllSpace(y + sp);
      TrimStartAllSpace(y + sp);
    } else {
      TrimStartAppend(y, sp);
      var w := TakeWord(t);
      TakeWordAppend(t, sp);
      var tail := t[|w|..];
      DropAppend(t, sp, |w|);
      WordsAppendSpaces(tail, sp);
      calc {
        Words(y + sp);
        [w] + Words((t + sp)[|w|..]);
        [w] + Words(tail + sp);
        [w] + Words(tail);
        Words(y);
      }
    }
  }

  /** Stripping never changes the words. */
  lemma WordsStrip(s: string)
    ensures Words(Strip(s)) == Words(s)
  {
    var t := TrimStart(s);
    var r := TrimEnd(t);
    var sp := t[|r|..];
    assert Strip(s) == r;
    TakeDrop(t, |r|);
    WordsAppendSpaces(r, sp);
    WordsTrimStart(s);
    calc {
      Words(r);
      Words(r + sp);
      { assert r + sp == t; }
      Words(t);
      Words(s);
    }
  }

  /** Cleaning a text cell is `" ".join(s.split())`: the words of the cell, in
      order, separated by single spaces. */
  lemma CleanTextIsJoinWords(s: string)
    ensures CleanText(s) == Join(" ", Words(s))
  {
    BreakStepRedundant(s);
    CollapseStrippedIsJoinWords(Strip(s));
    WordsStrip(s);
  }

  /** Leading whitespace adds no word. */
  lemma {:induction false} WordsLeadingSpaces(sp: string, y: string)
    requires AllSpace(sp)
    ensures Words(sp + y) == Words(y)
    decreases |sp|
  {
    if sp != [] {
      var x := sp + y;
      DropAppend(sp, y, 1);
      assert TrimStart(x) == TrimStart(x[1..]);
      WordsLeadingSpaces(sp[1..], y);
    } else {
      assert sp + y == y;
    }
  }

  /** A word followed by whitespace (or nothing) is the first word. */
  lemma WordsWordPrefix(w: string, rest: string)
    requires w != [] && NoSpace(w)
    requires rest == [] || IsSpace(rest[0])
    ensures Words(w + rest) == [w] + Words(rest)
  {
    TakeWordNoSpace(w);
    TakeWordAppend(w, rest);
    DropAppend(w, rest, |w|);
    TrimStartNoSpace(w + rest);
  }

  lemma WordsEmpty()
    ensures Words([]) == []
  {
  }

  /** The words of a joined list of words are that list. */
  lemma {:induction false} WordsJoin(ws: seq<string>)
    requires WordList(ws)
    ensures Words(Join(" ", ws)) == ws
  {
    if ws != [] {
      var w := ws[0];
      if |ws| == 1 {
        calc {
          Words(Join(" ", ws));
          { assert Join(" ", ws) == w + []; }
          Words(w + []);
          { WordsWordPrefix(w, []); }
          [w] + Words([]);
          { WordsEmpty(); }
          ws;
        }
      } else {
        var j := Join(" ", ws[1..]);
        calc {
          Words(Join(" ", ws));
          { assert Join(" ", ws) == w + (" " + j) by {
              ConsTail(ws);
              JoinCons(" ", w, ws[1..]);
              AppendAssoc(w, " ", j);
            }
          }
          Words(w + (" " + j));
          { WordsWordPrefix(w, " " + j); }
          [w] + Words(" " + j);
          { WordsLeadingSpaces(" ", j); }
          [w] + Words(j);
          { WordsJoin(ws[1..]); }
          [w] + ws[1..];
          { ConsTail(ws); }
          ws;
        }
      }
    }
  }

  /** Cleaning twice is cleaning once. */
  lemma CleanTextIdempotent(s: string)
    ensures CleanText(CleanText(s)) == CleanText(s)
  {
    CleanTextIsJoinWords(s);
    CleanTextIsJoinWords(CleanText(s));
    WordsShape(s);
    WordsJoin(Words(s));
  }

  lemma NewIsWord(w: string)
    requires w == "New"
    ensures w != [] && NoSpace(w)
  {
    assert |w| == 3 && w[0] == 'N' && w[1] == 'e' && w[2] == 'w';
  }

  lemma DelhiIsWord(w: string)
    requires w == "Delhi"
    ensures w != [] && NoSpace(w)
  {
    assert |w| == 5 && w[0] == 'D' && w[1] == 'e' && w[2] == 'l' && w[3] == 'h' && w[4] == 'i';
  }

  lemma NewDelhiJoin(a: string, b: string)
    requires a == "New" && b == "Delhi"
    ensures Join(" ", [a, b]) == "New Delhi"
  {
    assert [a, b] == [a] + [b];
    JoinCons(" ", a, [b]);
    assert Join(" ", [b]) == b;
  }

  /** `"  New\n Delhi  "` comes out as `"New Delhi"`. */
  lemma CleanTextExample(s: string)
    requires s == "  New\n Delhi  "
    ensures CleanText(s) == "New Delhi"
  {
    var a, b := "New", "Delhi";
    var tail := b + "  ";
    assert s == "  " + (a + ("\n " + tail));
    NewIsWord(a);
    DelhiIsWord(b);
    calc {
      Words(s);
      { WordsLeadingSpaces("  ", a + ("\n " + tail)); }
      Words(a + ("\n " + tail));
      { WordsWordPrefix(a, "\n " + tail); }
      [a] + Words("\n " + tail);
      { WordsLeadingSpaces("\n ", tail); }
      [a] + Words(tail);
      { WordsWordPrefix(b, "  "); }
      [a] + ([b] + Words("  "));
      { WordsLeadingSpaces("  ", []); assert "  " + [] == "  "; WordsEmpty(); }
      [a] + ([b] + []);
      [a, b];
    }
    CleanTextIsJoinWords(s);
    NewDelhiJoin(a, b);
  }

  /** `clean_value`: a missing cell reads as `""`, any other as its stripped text. */
  function CleanValue(v: Option<string>): (r: string)
    ensures Stripped(r)
    ensures v.None? ==> r == ""
    ensures v.Some? ==> exists i :: Framed(v.value, r, i)
  {
    match v
    case None => ""
    case Some(s) => Strip(s)
  }

  /** A cleaned value is non-empty exactly when the cell is present and holds
      a character other than whitespace. */
  lemma CleanValuePresent(v: Option<string>)
    ensures CleanValue(v) != "" <==> v.Some? && !AllSpace(v.value)
  {
    if v.Some? {
      StripEmpty(v.value);
    }
  }

  /** A stripped string reads back as itself. */
  lemma StripStripped(s: string)
    requires Stripped(s)
    ensures Strip(s) == s
  {
    TrimStartNoSpace(s);
  }

  /** Reading a cleaned text cell through `clean_value` gives the cleaned text. */
  lemma CleanValueOfCleanText(s: string)
    ensures CleanValue(Some(CleanText(s))) == CleanText(s)
  {
    StripStripped(CleanText(s));
  }
}
