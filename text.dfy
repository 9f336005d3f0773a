/** The string operations the loader and the sentiment page apply to text values:
    Python's `str.strip()`, the regular-expression replacement of `\s+` by one space,
    `str.title()`, `str.lower()` and the substring test `w in s`, all restricted to
    ASCII (letters A-Z/a-z; the ASCII characters for which `str.isspace()` holds). */
module Text {

  /** `str.isspace()` on ASCII: tab, line feed, vertical tab, form feed, carriage
      return (9-13), the four information separators (28-31) and space (32). The
      pattern `\s` of Python's `re` matches the same characters. */
  predicate IsSpace(c: char) {
    (9 <= c as int <= 13) || (28 <= c as int <= 32)
  }

  predicate IsUpper(c: char) { 'A' <= c <= 'Z' }

  predicate IsLower(c: char) { 'a' <= c <= 'z' }

  predicate IsLetter(c: char) { IsUpper(c) || IsLower(c) }

  function ToLower(c: char): (r: char)
    ensures IsLetter(c) ==> IsLower(r) && ToUpper(r) == ToUpper(c)
    ensures !IsLetter(c) ==> r == c
    ensures IsLetter(r) == IsLetter(c) && IsSpace(r) == IsSpace(c)
  {
    if IsUpper(c) then (c as int + 32) as char else c
  }

  function ToUpper(c: char): (r: char)
    ensures IsLetter(c) ==> IsUpper(r)
    ensures !IsLetter(c) ==> r == c
    ensures IsLetter(r) == IsLetter(c) && IsSpace(r) == IsSpace(c)
  {
    if IsLower(c) then (c as int - 32) as char else c
  }

  /** `str.lower()`. */
  function Lower(s: string): (r: string)
    ensures |r| == |s|
    ensures forall i :: 0 <= i < |s| ==> r[i] == ToLower(s[i])
  {
    seq(|s|, i requires 0 <= i < |s| => ToLower(s[i]))
  }

  lemma LowerIdempotent(s: string)
    ensures Lower(Lower(s)) == Lower(s)
  {
  }

  /** `w in s` on Python strings: `w` occurs as a contiguous piece of `s`. */
  predicate Contains(s: string, w: string) {
    exists i :: 0 <= i <= |s| - |w| && OccursAt(s, w, i)
  }

  predicate OccursAt(s: string, w: string, i: int)
    requires 0 <= i <= |s| - |w|
  {
    s[i..i + |w|] == w
  }

  // ---------------------------------------------------------------------------
  // Whitespace: strip and collapse
  // ---------------------------------------------------------------------------

  /** Drops the leading whitespace; what is dropped is whitespace, and what is
      kept is a suffix of `s` that does not start with whitespace. */
  function TrimStart(s: string): (r: string)
    ensures |r| <= |s| && r == s[|s| - |r|..]
    ensures r != [] ==> !IsSpace(r[0])
    ensures forall k :: 0 <= k < |s| - |r| ==> IsSpace(s[k])
  {
    if s != [] && IsSpace(s[0]) then TrimStart(s[1..]) else s
  }

  /** Drops the trailing whitespace. */
  function TrimEnd(s: string): (r: string)
    ensures |r| <= |s| && r == s[..|r|]
    ensures r != [] ==> !IsSpace(r[|r| - 1])
    ensures forall k :: |r| <= k < |s| ==> IsSpace(s[k])
  {
    if s != [] && IsSpace(s[|s| - 1]) then TrimEnd(s[..|s| - 1]) else s
  }

  /** `str.strip()` with no argument. */
  function Strip(s: string): (r: string)
    ensures NoEdgeSpace(r)
  {
    TrimEnd(TrimStart(s))
  }

  predicate NoEdgeSpace(s: string) {
    s != [] ==> !IsSpace(s[0]) && !IsSpace(s[|s| - 1])
  }

  /** No whitespace character other than a plain space, and never two whitespace
      characters side by side. */
  predicate SingleSpaced(s: string) {
    (forall i :: 0 <= i < |s| && IsSpace(s[i]) ==> s[i] == ' ') &&
    (forall i :: 0 < i < |s| ==> NotBothSpace(s, i))
  }

  /** The characters at `i - 1` and `i` are not both whitespace. */
  predicate NotBothSpace(s: string, i: nat)
    requires 0 < i < |s|
  {
    !IsSpace(s[i - 1]) || !IsSpace(s[i])
  }

  /** `re.sub(r"\s+", " ", s)`: every maximal run of whitespace becomes one space. */
  function Collapse(s: string): (r: string)
    ensures |r| <= |s| && (r == []) == (s == [])
    ensures r != [] ==> (IsSpace(r[0]) <==> IsSpace(s[0]))
    ensures r != [] ==> (IsSpace(r[|r| - 1]) <==> IsSpace(s[|s| - 1]))
    ensures SingleSpaced(r)
    decreases |s|
  {
    if s == [] then []
    else if IsSpace(s[0]) then
      var t := Collapse(TrimStart(s[1..]));
      SingleSpacedCons(' ', t);
      [' '] + t
    else
      var t := Collapse(s[1..]);
      SingleSpacedCons(s[0], t);
      [s[0]] + t
  }

  /** One more character in front keeps a text single-spaced when it is not
      whitespace, or is a plain space before a non-whitespace character. */
  lemma SingleSpacedCons(c: char, t: string)
    requires SingleSpaced(t)
    requires IsSpace(c) ==> c == ' ' && (t != [] ==> !IsSpace(t[0]))
    ensures SingleSpaced([c] + t)
  {
    var s := [c] + t;
    forall i | 0 < i < |s|
      ensures NotBothSpace(s, i)
    {
      if i > 1 {
        assert NotBothSpace(t, i - 1);
        assert s[i - 1] == t[i - 2] && s[i] == t[i - 1];
      }
    }
  }

  lemma SingleSpacedTail(s: string)
    requires SingleSpaced(s) && s != []
    ensures SingleSpaced(s[1..])
  {
    var t := s[1..];
    forall i | 0 < i < |t|
      ensures NotBothSpace(t, i)
    {
      assert NotBothSpace(s, i + 1);
      assert t[i - 1] == s[i] && t[i] == s[i + 1];
    }
  }

  /** Leading whitespace ends at the first non-whitespace character, so what
      follows it is kept whole. */
  lemma {:induction false} TrimStartAppend(a: string, b: string)
    requires exists k :: 0 <= k < |a| && !IsSpace(a[k])
    ensures TrimStart(a + b) == TrimStart(a) + b
  {
    assert (a + b)[0] == a[0];
    if IsSpace(a[0]) {
      assert (a + b)[1..] == a[1..] + b;
      var k :| 0 <= k < |a| && !IsSpace(a[k]);
      assert a[1..][k - 1] == a[k];
      TrimStartAppend(a[1..], b);
    }
  }

  lemma {:induction false} TrimStartSpaces(w: string, y: string)
    requires forall k :: 0 <= k < |w| ==> IsSpace(w[k])
    requires y == [] || !IsSpace(y[0])
    ensures TrimStart(w + y) == y
  {
    if w == [] {
      assert w + y == y;
    } else {
      assert (w + y)[1..] == w[1..] + y;
      TrimStartSpaces(w[1..], y);
    }
  }

  /** A text that does not end in whitespace collapses on its own: no run
      crosses its end. */
  lemma {:induction false} CollapseAppend(a: string, b: string)
    requires a == [] || !IsSpace(a[|a| - 1])
    ensures Collapse(a + b) == Collapse(a) + Collapse(b)
    decreases |a|, 1
  {
    if a == [] {
      assert a + b == b;
    } else if !IsSpace(a[0]) {
      CollapseAppendWord(a, b);
    } else {
      CollapseAppendRun(a, b);
    }
  }

  lemma {:induction false} CollapseAppendWord(a: string, b: string)
    requires a != [] && !IsSpace(a[0]) && !IsSpace(a[|a| - 1])
    ensures Collapse(a + b) == Collapse(a) + Collapse(b)
    decreases |a|, 0
  {
    TailOfAppend(a, b);
    CollapseWordHead(a + b);
    CollapseWordHead(a);
    CollapseAppend(a[1..], b);
    Associative([a[0]], Collapse(a[1..]), Collapse(b));
  }

  lemma {:induction false} CollapseAppendRun(a: string, b: string)
    requires a != [] && IsSpace(a[0]) && !IsSpace(a[|a| - 1])
    ensures Collapse(a + b) == Collapse(a) + Collapse(b)
    decreases |a|, 0
  {
    var r := a[1..];
    TailOfAppend(a, b);
    LastKept(r);
    TrimStartAppend(r, b);
    var t := TrimStart(r);
    CollapseSpaceHead(a + b);
    CollapseSpaceHead(a);
    CollapseAppend(t, b);
    Associative([' '], Collapse(t), Collapse(b));
  }

  lemma TailOfAppend(a: string, b: string)
    requires a != []
    ensures (a + b)[0] == a[0] && (a + b)[1..] == a[1..] + b
  {
  }

  lemma Associative(x: string, y: string, z: string)
    ensures x + (y + z) == x + y + z
  {
  }

  lemma CollapseWordHead(s: string)
    requires s != [] && !IsSpace(s[0])
    ensures Collapse(s) == [s[0]] + Collapse(s[1..])
  {
  }

  lemma CollapseSpaceHead(s: string)
    requires s != [] && IsSpace(s[0])
    ensures Collapse(s) == [' '] + Collapse(TrimStart(s[1..]))
  {
  }

  /** A text ending in a non-whitespace character keeps it through `TrimStart`. */
  lemma LastKept(r: string)
    requires r != [] && !IsSpace(r[|r| - 1])
    ensures exists k :: 0 <= k < |r| && !IsSpace(r[k])
    ensures var t := TrimStart(r); t != [] && !IsSpace(t[|t| - 1])
  {
    var t := TrimStart(r);
    assert t == r[|r| - |t|..];
  }

  /** A maximal run of whitespace, however long and whatever its characters,
      becomes exactly one plain space, and the text on either side collapses
      on its own. */
  lemma CollapseRun(x: string, w: string, y: string)
    requires x == [] || !IsSpace(x[|x| - 1])
    requires w != [] && forall k :: 0 <= k < |w| ==> IsSpace(w[k])
    requires y == [] || !IsSpace(y[0])
    ensures Collapse(x + w + y) == Collapse(x) + " " + Collapse(y)
  {
    Associative(x, w, y);
    CollapseAppend(x, w + y);
    TailOfAppend(w, y);
    CollapseSpaceHead(w + y);
    TrimStartSpaces(w[1..], y);
    Associative(Collapse(x), " ", Collapse(y));
  }

  /** The text normalisation of the loader: strip, then collapse whitespace runs. */
  function NormalizeText(s: string): string {
    Collapse(Strip(s))
  }

  /** The characters of `s` that are not whitespace, in order. */
  function Squeeze(s: string): string {
    if s == [] then [] else (if IsSpace(s[0]) then [] else [s[0]]) + Squeeze(s[1..])
  }

  lemma {:induction false} SqueezeAppend(a: string, b: string)
    ensures Squeeze(a + b) == Squeeze(a) + Squeeze(b)
  {
    if a == [] {
      assert a + b == b;
    } else {
      assert (a + b)[1..] == a[1..] + b;
      SqueezeAppend(a[1..], b);
    }
  }

  lemma {:induction false} SqueezeAllSpace(s: string)
    requires forall k :: 0 <= k < |s| ==> IsSpace(s[k])
    ensures Squeeze(s) == []
  {
    if s != [] {
      SqueezeAllSpace(s[1..]);
    }
  }

  lemma SqueezeTrimStart(s: string)
    ensures Squeeze(TrimStart(s)) == Squeeze(s)
  {
    var t := TrimStart(s);
    var p := s[..|s| - |t|];
    assert s == p + t;
    SqueezeAppend(p, t);
    SqueezeAllSpace(p);
  }

  lemma SqueezeTrimEnd(s: string)
    ensures Squeeze(TrimEnd(s)) == Squeeze(s)
  {
    var u := TrimEnd(s);
    var q := s[|u|..];
    assert s == u + q;
    SqueezeAppend(u, q);
    SqueezeAllSpace(q);
  }

  lemma SqueezeStrip(s: string)
    ensures Squeeze(Strip(s)) == Squeeze(s)
  {
    SqueezeTrimStart(s);
    SqueezeTrimEnd(TrimStart(s));
  }

  lemma {:induction false} SqueezeCollapse(s: string)
    ensures Squeeze(Collapse(s)) == Squeeze(s)
    decreases |s|
  {
    if s == [] {
    } else if IsSpace(s[0]) {
      var t := TrimStart(s[1..]);
      SqueezeCollapse(t);
      SqueezeAppend([' '], Collapse(t));
      SqueezeTrimStart(s[1..]);
    } else {
      SqueezeCollapse(s[1..]);
      SqueezeAppend([s[0]], Collapse(s[1..]));
    }
  }

  /** A normalised text value: no whitespace at either end, no whitespace but plain
      single spaces, so normalising it again changes nothing. */
  predicate IsNormalized(s: string) {
    NoEdgeSpace(s) && SingleSpaced(s)
  }

  lemma {:induction false} CollapseSingleSpaced(s: string)
    requires SingleSpaced(s)
    ensures Collapse(s) == s
    decreases |s|
  {
    if s != [] {
      var t := s[1..];
      SingleSpacedTail(s);
      CollapseSingleSpaced(t);
      if IsSpace(s[0]) {
        if t != [] {
          assert NotBothSpace(s, 1);
        }
        TrimStartKeeps(t);
      }
      assert s == [s[0]] + t;
    }
  }

  lemma TrimStartKeeps(t: string)
    requires t != [] ==> !IsSpace(t[0])
    ensures TrimStart(t) == t
  {
  }

  lemma StripNoEdge(s: string)
    requires NoEdgeSpace(s)
    ensures Strip(s) == s
  {
  }

  /** A value without whitespace is left as it is by the normalisation. */
  lemma NoSpaceNormalized(s: string)
    requires forall i :: 0 <= i < |s| ==> !IsSpace(s[i])
    ensures NormalizeText(s) == s
  {
    assert NoEdgeSpace(s);
    StripNoEdge(s);
    assert SingleSpaced(s);
    CollapseSingleSpaced(s);
  }

  /** The loader's text normalisation yields a normalised value with the same
      non-whitespace characters in the same order, and it is idempotent. */
  lemma NormalizeTextSpec(s: string)
    ensures IsNormalized(NormalizeText(s))
    ensures Squeeze(NormalizeText(s)) == Squeeze(s)
    ensures NormalizeText(NormalizeText(s)) == NormalizeText(s)
  {
    var t := NormalizeText(s);
    SqueezeStrip(s);
    SqueezeCollapse(Strip(s));
    StripNoEdge(t);
    CollapseSingleSpaced(t);
  }

  // ---------------------------------------------------------------------------
  // Title case
  // ---------------------------------------------------------------------------

  /** `str.title()`: a letter that follows a letter is lower-cased, any other
      letter is upper-cased; every other character is kept. */
  function Title(s: string): (r: string)
    ensures |r| == |s|
  {
    TitleFrom(s, false)
  }

  function TitleFrom(s: string, afterLetter: bool): (r: string)
    ensures |r| == |s|
  {
    if s == [] then []
    else [if afterLetter then ToLower(s[0]) else ToUpper(s[0])] + TitleFrom(s[1..], IsLetter(s[0]))
  }

  /** What `Title` puts at position `i`: decided by `s[i]` and whether `s[i - 1]` is a letter. */
  function TitleAt(s: string, i: nat): char
    requires i < |s|
  {
    if i > 0 && IsLetter(s[i - 1]) then ToLower(s[i]) else ToUpper(s[i])
  }

  predicate IsTitled(s: string) {
    forall i :: 0 <= i < |s| ==> s[i] == TitleAt(s, i)
  }

  lemma {:induction false} TitleFromAt(s: string, afterLetter: bool, i: nat)
    requires i < |s|
    ensures TitleFrom(s, afterLetter)[i] ==
      if i == 0 then (if afterLetter then ToLower(s[0]) else ToUpper(s[0])) else TitleAt(s, i)
  {
    if i > 0 {
      TitleFromAt(s[1..], IsLetter(s[0]), i - 1);
    }
  }

  /** Title case decided position by position, and its result is a fixed point. */
  lemma TitleSpec(s: string)
    ensures |Title(s)| == |s|
    ensures forall i :: 0 <= i < |s| ==> Title(s)[i] == TitleAt(s, i)
    ensures IsTitled(Title(s))
    ensures Title(Title(s)) == Title(s)
  {
    var t := Title(s);
    forall i | 0 <= i < |s|
      ensures t[i] == TitleAt(s, i)
    {
      TitleFromAt(s, false, i);
    }
    forall i | 0 <= i < |s|
      ensures t[i] == TitleAt(t, i)
    {
      if i > 0 {
        assert IsLetter(t[i - 1]) == IsLetter(s[i - 1]);
      }
    }
    TitledFixed(t);
  }

  lemma TitledFixed(s: string)
    requires IsTitled(s)
    ensures Title(s) == s
  {
    forall i | 0 <= i < |s|
      ensures Title(s)[i] == s[i]
    {
      TitleFromAt(s, false, i);
    }
  }
}
