/** Turning spreadsheet headers into merge-field keys: the space replacement
    applied to all columns, then `transform_column_names` on each one. */
module Headers {
  import opened Strings

  /** The line break the header rules test for. */
  const LineBreak := "\n"

  /** Every space becomes an underscore (`str.replace(' ', '_')` over the column index). */
  function SpacesToUnderscores(h: string): string
  {
    ReplaceAll(h, " ", "_")
  }

  /** The generator expression that keeps every character other than `(` and `)`. */
  function DropParens(s: string): string
  {
    if s == [] then [] else (if s[0] in "()" then [] else [s[0]]) + DropParens(s[1..])
  }

  /** `transform_column_names`: a header that holds a line break but does not
      start with one has every break turned into `_`; a header that starts with
      a break has only that first break turned into `M__`; then parentheses,
      slashes and full stops are deleted. */
  function TransformColumnName(col: string): string
  {
    var c1 := if Contains(col, LineBreak) && !StartsWith(col, LineBreak) then ReplaceAll(col, LineBreak, "_") else col;
    var c2 := if StartsWith(c1, LineBreak) then ReplaceFirst(c1, LineBreak, "M__") else c1;
    TransformTailValue(c2)
  }

  /** The key a raw header becomes. */
  function NormalizeHeader(h: string): string
  {
    TransformColumnName(SpacesToUnderscores(h))
  }

  /** Characters that never survive normalisation. */
  predicate Removed(c: char) {
    c == '(' || c == ')' || c == '/' || c == '.'
  }

  /** Reference definition, one character at a time: what a single header
      character becomes, given what a line break is turned into. */
  function HeaderChar(c: char, lineBreak: string): string
  {
    if c == ' ' then "_"
    else if c == '\n' then lineBreak
    else if Removed(c) then []
    else [c]
  }

  function MapHeader(s: string, lineBreak: string): string
  {
    if s == [] then [] else HeaderChar(s[0], lineBreak) + MapHeader(s[1..], lineBreak)
  }

  // ---- proof helpers: each stage works character by character ----

  /** Parentheses removal and the two deletions of line 13, as character substitutions. */
  function Cleanup(s: string): string
  {
    SubstChar(SubstChar(DropParens(s), '/', ""), '.', "")
  }

  lemma {:induction false} DropParensAppend(a: string, b: string)
    ensures DropParens(a + b) == DropParens(a) + DropParens(b)
  {
    if a == [] {
      assert a + b == b;
    } else {
      assert (a + b)[1..] == a[1..] + b;
      DropParensAppend(a[1..], b);
    }
  }

  lemma CleanupAppend(a: string, b: string)
    ensures Cleanup(a + b) == Cleanup(a) + Cleanup(b)
  {
    DropParensAppend(a, b);
    SubstCharAppend(DropParens(a), DropParens(b), '/', "");
    SubstCharAppend(SubstChar(DropParens(a), '/', ""), SubstChar(DropParens(b), '/', ""), '.', "");
  }

  lemma SubstCharCons(x: char, rest: string, c: char, t: string)
    ensures SubstChar([x] + rest, c, t) == (if x == c then t else [x]) + SubstChar(rest, c, t)
  {
    assert ([x] + rest)[1..] == rest;
  }

  lemma SubstCharSingle(x: char, c: char, t: string)
    ensures SubstChar([x], c, t) == (if x == c then t else [x])
  {
    SubstCharCons(x, [], c, t);
    assert [x] + [] == [x];
  }

  lemma CleanupSingle(x: char)
    ensures Cleanup([x]) == (if Removed(x) then [] else [x])
  {
    assert DropParens([x]) == (if x in "()" then [] else [x]) + DropParens([]);
    if !(x in "()") {
      SubstCharSingle(x, '/', "");
      if x != '/' {
        SubstCharSingle(x, '.', "");
      }
    }
  }

  lemma {:induction false} CleanupIsMapHeader(s: string, lineBreak: string)
    requires ' ' !in s && '\n' !in s
    ensures Cleanup(s) == MapHeader(s, lineBreak)
  {
    if s != [] {
      CleanupIsMapHeader(s[1..], lineBreak);
      assert s == [s[0]] + s[1..];
      CleanupAppend([s[0]], s[1..]);
      CleanupSingle(s[0]);
    }
  }

  /** The stages before the cleanup, for a header with no leading break. */
  lemma {:induction false} BreaksThenCleanup(s: string)
    ensures Cleanup(SubstChar(SubstChar(s, ' ', "_"), '\n', "_")) == MapHeader(s, "_")
  {
    if s != [] {
      var x, rest := s[0], s[1..];
      assert s == [x] + rest;
      BreaksThenCleanup(rest);
      SubstCharCons(x, rest, ' ', "_");
      var a := if x == ' ' then "_" else [x];
      SubstCharAppend(a, SubstChar(rest, ' ', "_"), '\n', "_");
      var b := SubstChar(a, '\n', "_");
      CleanupAppend(b, SubstChar(SubstChar(rest, ' ', "_"), '\n', "_"));
      if x == ' ' {
        SubstCharSingle('_', '\n', "_");
        CleanupSingle('_');
      } else {
        SubstCharSingle(x, '\n', "_");
        if x == '\n' {
          CleanupSingle('_');
        } else {
          CleanupSingle(x);
        }
      }
    }
  }

  /** The stages after the leading break, which leave later breaks alone. */
  lemma {:induction false} SpacesThenCleanup(s: string)
    ensures Cleanup(SubstChar(s, ' ', "_")) == MapHeader(s, "\n")
  {
    if s != [] {
      var x, rest := s[0], s[1..];
      assert s == [x] + rest;
      SpacesThenCleanup(rest);
      SubstCharCons(x, rest, ' ', "_");
      var a := if x == ' ' then "_" else [x];
      CleanupAppend(a, SubstChar(rest, ' ', "_"));
      if x == ' ' {
        CleanupSingle('_');
      } else {
        CleanupSingle(x);
      }
    }
  }

  lemma SubstCharRemoves(s: string, c: char, t: string)
    requires c !in t
    ensures c !in SubstChar(s, c, t)
  {
    if s != [] {
      SubstCharCons(s[0], s[1..], c, t);
      assert s == [s[0]] + s[1..];
      SubstCharRemoves(s[1..], c, t);
    }
  }

  lemma TransformTail(c2: string)
    ensures TransformTailValue(c2) == Cleanup(c2)
  {
    ReplaceCharIsSubst(DropParens(c2), '/', "");
    ReplaceCharIsSubst(SubstChar(DropParens(c2), '/', ""), '.', "");
  }

  /** The last two lines of `transform_column_names`: drop parentheses, then
      slashes and full stops. */
  function TransformTailValue(c2: string): string
  {
    ReplaceAll(ReplaceAll(DropParens(c2), "/", ""), ".", "")
  }

  /** The space step commutes with asking whether the header starts with a break. */
  lemma {:induction false} SpacesKeepLeadingBreak(h: string)
    ensures SpacesToUnderscores(h) == SubstChar(h, ' ', "_")
    ensures StartsWith(SpacesToUnderscores(h), "\n") <==> StartsWith(h, "\n")
    ensures StartsWith(h, "\n") ==> SpacesToUnderscores(h) == "\n" + SubstChar(h[1..], ' ', "_")
  {
    ReplaceCharIsSubst(h, ' ', "_");
    if h != [] {
      assert h == [h[0]] + h[1..];
      SubstCharCons(h[0], h[1..], ' ', "_");
    }
  }

  lemma {:induction false} NormalizeNoLeadingBreak(h: string)
    requires !StartsWith(h, "\n")
    ensures NormalizeHeader(h) == MapHeader(h, "_")
  {
    SpacesKeepLeadingBreak(h);
    var h1 := SpacesToUnderscores(h);
    var c1 := SubstChar(h1, '\n', "_");
    ReplaceCharIsSubst(h1, '\n', "_");
    ContainsChar(h1, '\n');
    if '\n' !in h1 {
      SubstCharAbsent(h1, '\n', "_");
    }
    SubstCharRemoves(h1, '\n', "_");
    if c1 != [] {
      assert c1[0] in c1;
    }
    assert NormalizeHeader(h) == TransformTailValue(c1);
    TransformTail(c1);
    BreaksThenCleanup(h);
  }

  /** The `M__` prefix is made of plain characters only. */
  lemma MarkerPlain(m: string, lineBreak: string)
    requires m == "M__"
    ensures MapHeader(m, lineBreak) == m
    ensures ' ' !in m && '\n' !in m && !StartsWith(m, "\n")
  {
    assert |m| == 3 && m[0] == 'M' && m[1] == '_' && m[2] == '_';
    assert forall i :: 0 <= i < |m| ==> Plain(m[i]);
    MapHeaderPlain(m, lineBreak);
  }

  /** The `M__` prefix has nothing the cleanup removes. */
  lemma MarkerKept(m: string)
    requires m == "M__"
    ensures Cleanup(m) == m
  {
    MarkerPlain(m, "\n");
    CleanupIsMapHeader(m, "\n");
  }

  lemma {:induction false} NormalizeLeadingBreak(h: string)
    requires StartsWith(h, "\n")
    ensures NormalizeHeader(h) == "M__" + MapHeader(h[1..], "\n")
  {
    SpacesKeepLeadingBreak(h);
    var h1 := SpacesToUnderscores(h);
    var rest := SubstChar(h[1..], ' ', "_");
    assert h1[1..] == rest;
    var c2 := "M__" + rest;
    calc {
      NormalizeHeader(h);
      TransformTailValue(c2);
      { TransformTail(c2); }
      Cleanup(c2);
      { CleanupAppend("M__", rest); }
      Cleanup("M__") + Cleanup(rest);
      { MarkerKept("M__"); }
      "M__" + Cleanup(rest);
      { SpacesThenCleanup(h[1..]); }
      "M__" + MapHeader(h[1..], "\n");
    }
  }

  /** Normalisation agrees with the one-character-at-a-time reference: without
      a leading break every break becomes `_`; with one, the header starts with
      `M__` and the later breaks stay. Every other character is kept or dropped
      on its own, in order. */
  lemma NormalizeHeaderReference(h: string)
    ensures !StartsWith(h, "\n") ==> NormalizeHeader(h) == MapHeader(h, "_")
    ensures StartsWith(h, "\n") ==> NormalizeHeader(h) == "M__" + MapHeader(h[1..], "\n")
  {
    if StartsWith(h, "\n") {
      NormalizeLeadingBreak(h);
    } else {
      NormalizeNoLeadingBreak(h);
    }
  }

  /** A header character that normalisation keeps as it is. */
  predicate Plain(c: char) {
    c != ' ' && c != '\n' && !Removed(c)
  }

  lemma {:induction false} MapHeaderAppend(a: string, b: string, lineBreak: string)
    ensures MapHeader(a + b, lineBreak) == MapHeader(a, lineBreak) + MapHeader(b, lineBreak)
  {
    if a == [] {
      assert a + b == b;
    } else {
      assert (a + b)[1..] == a[1..] + b;
      MapHeaderAppend(a[1..], b, lineBreak);
    }
  }

  /** What the reference produces: no space and no removed character; a break
      only where a break is kept, and then exactly when the input had one. */
  lemma {:induction false} MapHeaderChars(s: string, lineBreak: string)
    requires lineBreak == "_" || lineBreak == "\n"
    ensures forall i :: 0 <= i < |MapHeader(s, lineBreak)| ==>
      MapHeader(s, lineBreak)[i] != ' ' && !Removed(MapHeader(s, lineBreak)[i])
    ensures lineBreak == "_" ==> '\n' !in MapHeader(s, lineBreak)
    ensures lineBreak == "\n" ==> ('\n' in MapHeader(s, lineBreak) <==> '\n' in s)
  {
    if s != [] {
      MapHeaderChars(s[1..], lineBreak);
      assert s == [s[0]] + s[1..];
    }
  }

  /** A header made only of plain characters is its own reference image. */
  lemma {:induction false} MapHeaderPlain(s: string, lineBreak: string)
    requires forall i :: 0 <= i < |s| ==> Plain(s[i])
    ensures MapHeader(s, lineBreak) == s
  {
    if s != [] {
      MapHeaderPlain(s[1..], lineBreak);
      assert s == [s[0]] + s[1..];
    }
  }

  /** After normalisation a key holds no space, parenthesis, slash or full stop.
      A header without a leading break loses all its breaks; one with a leading
      break comes out starting with `M__` and keeps a break exactly when it had
      a second one. */
  lemma NormalizedHeaderShape(h: string)
    ensures forall i :: 0 <= i < |NormalizeHeader(h)| ==>
      NormalizeHeader(h)[i] != ' ' && !Removed(NormalizeHeader(h)[i])
    ensures !StartsWith(h, "\n") ==> '\n' !in NormalizeHeader(h)
    ensures StartsWith(h, "\n") ==>
      StartsWith(NormalizeHeader(h), "M__") && ('\n' in NormalizeHeader(h) <==> '\n' in h[1..])
  {
    NormalizeHeaderReference(h);
    if StartsWith(h, "\n") {
      var m := MapHeader(h[1..], "\n");
      MapHeaderChars(h[1..], "\n");
      assert NormalizeHeader(h) == "M__" + m;
      assert forall i :: 3 <= i < |NormalizeHeader(h)| ==> NormalizeHeader(h)[i] == m[i - 3];
    } else {
      MapHeaderChars(h, "_");
    }
  }

  /** Equal strings with a common prefix have equal tails. */
  lemma PrefixCancel(p: string, x: string, y: string)
    requires p + x == p + y
    ensures x == y
  {
    DropAppend(p, x, |p|);
    DropAppend(p, y, |p|);
  }

  /** The second pass over a key whose header started with a break. */
  lemma IdempotentLeadingBreak(h: string)
    requires StartsWith(h, "\n")
    ensures NormalizeHeader(NormalizeHeader(h)) == NormalizeHeader(h) <==> '\n' !in h[1..]
  {
    var m := MapHeader(h[1..], "\n");
    NormalizeLeadingBreak(h);
    var r := "M__" + m;
    MarkerPlain("M__", "_");
    assert !StartsWith(r, "\n") by {
      assert r[0] == "M__"[0];
    }
    NormalizeNoLeadingBreak(r);
    MapHeaderAppend("M__", m, "_");
    assert NormalizeHeader(r) == "M__" + MapHeader(m, "_");
    MapHeaderChars(h[1..], "\n");
    if '\n' in h[1..] {
      MapHeaderChars(m, "_");
      assert MapHeader(m, "_") != m;
      if NormalizeHeader(r) == r {
        PrefixCancel("M__", MapHeader(m, "_"), m);
      }
    } else {
      assert forall i :: 0 <= i < |m| ==> Plain(m[i]) by {
        forall i | 0 <= i < |m| ensures Plain(m[i]) {
          assert m[i] in m;
        }
      }
      MapHeaderPlain(m, "_");
    }
  }

  /** The second pass over a key whose header did not start with a break. */
  lemma IdempotentNoLeadingBreak(h: string)
    requires !StartsWith(h, "\n")
    ensures NormalizeHeader(NormalizeHeader(h)) == NormalizeHeader(h)
  {
    var r := NormalizeHeader(h);
    NormalizedHeaderShape(h);
    assert !StartsWith(r, "\n") by {
      if r != [] {
        assert r[0] in r;
      }
    }
    NormalizeNoLeadingBreak(r);
    assert forall i :: 0 <= i < |r| ==> Plain(r[i]) by {
      forall i | 0 <= i < |r| ensures Plain(r[i]) {
        assert r[i] in r;
      }
    }
    MapHeaderPlain(r, "_");
  }

  /** Normalising a key a second time changes it exactly when the header
      started with a line break and held another one: the first pass leaves
      the later breaks, and the second pass, no longer seeing a leading break,
      turns them into `_`. */
  lemma NormalizeIdempotentIff(h: string)
    ensures NormalizeHeader(NormalizeHeader(h)) == NormalizeHeader(h)
      <==> !(StartsWith(h, "\n") && '\n' in h[1..])
  {
    if StartsWith(h, "\n") {
      IdempotentLeadingBreak(h);
    } else {
      IdempotentNoLeadingBreak(h);
    }
  }

  lemma DigitsPiece() ensures MapHeader("13(2)", "_") == "132" { }

  /** `13(2)` keeps its digits in order. */
  lemma NormalizeParenthesisExample(h: string)
    requires h == "13(2)"
    ensures NormalizeHeader(h) == "132"
  {
    assert h[0] == '1';
    NormalizeNoLeadingBreak(h);
    DigitsPiece();
  }

  lemma LoanPiece() ensures MapHeader("Loan", "_") == "Loan" { }

  lemma ParenPiece() ensures MapHeader(" (13)", "_") == "_13" { }

  lemma DatePiece() ensures MapHeader("/Date.", "_") == "Date" { }

  lemma MixedPieces(h: string)
    requires h == "Loan (13)/Date."
    ensures h == "Loan" + " (13)" + "/Date."
  {
  }

  lemma MapHeaderAppend3(a: string, b: string, c: string)
    ensures MapHeader(a + b + c, "_") == MapHeader(a, "_") + MapHeader(b, "_") + MapHeader(c, "_")
  {
    MapHeaderAppend(a + b, c, "_");
    MapHeaderAppend(a, b, "_");
  }

  /** Spaces, parentheses, a slash and a full stop together. */
  lemma NormalizeMixedExample(h: string)
    requires h == "Loan (13)/Date."
    ensures NormalizeHeader(h) == "Loan_13Date"
  {
    assert MapHeader(h, "_") == "Loan_13Date" by {
      MixedPieces(h);
      MapHeaderAppend3("Loan", " (13)", "/Date.");
      LoanPiece();
      ParenPiece();
      DatePiece();
    }
    assert !StartsWith(h, "\n") by {
      assert h[0] == 'L';
    }
    NormalizeNoLeadingBreak(h);
  }

  lemma InnerBreakKept() ensures MapHeader("A\nB", "\n") == "A\nB" { }

  lemma InnerBreakReplaced() ensures MapHeader("M__A\nB", "_") == "M__A_B" { }

  /** A header with a leading and an inner break is not a fixed point. */
  lemma NormalizeTwoBreaksExample(h: string)
    requires h == "\nA\nB"
    ensures NormalizeHeader(h) == "M__A\nB"
    ensures NormalizeHeader(NormalizeHeader(h)) == "M__A_B"
  {
    NormalizeLeadingBreak(h);
    assert h[1..] == "A\nB";
    InnerBreakKept();
    var r := NormalizeHeader(h);
    assert r[0] == 'M';
    NormalizeNoLeadingBreak(r);
    InnerBreakReplaced();
  }
}
