/** The string operations the source relies on, restricted to ASCII:
    Python's `str.replace`, `str.capitalize` and `str.title`, SQLite's
    case-insensitive `LIKE '%p%'`, and SQLite's ordering of TEXT values. */
module Text {

  predicate IsUpper(c: char) { 'A' <= c <= 'Z' }
  predicate IsLower(c: char) { 'a' <= c <= 'z' }
  /** A cased character in the sense of `str.title`. */
  predicate IsLetter(c: char) { IsUpper(c) || IsLower(c) }

  function ToLower(c: char): (d: char)
    ensures IsLetter(d) <==> IsLetter(c)
    ensures !IsUpper(d)
    ensures !IsLetter(c) ==> d == c
  {
    if IsUpper(c) then (c as int + 32) as char else c
  }

  function ToUpper(c: char): (d: char)
    ensures IsLetter(d) <==> IsLetter(c)
    ensures !IsLower(d)
    ensures !IsLetter(c) ==> d == c
  {
    if IsLower(c) then (c as int - 32) as char else c
  }

  /** Every ASCII letter in lower case, everything else untouched. */
  function Lower(s: string): (r: string)
    ensures |r| == |s|
  {
    seq(|s|, i requires 0 <= i < |s| => ToLower(s[i]))
  }

  /** `s.replace(a, b)` for single characters. */
  function ReplaceChar(s: string, a: char, b: char): (r: string)
    ensures |r| == |s|
  {
    seq(|s|, i requires 0 <= i < |s| => if s[i] == a then b else s[i])
  }

  /** `s.capitalize()`: first character upper case, the rest lower case. */
  function Capitalize(s: string): (r: string)
    ensures |r| == |s|
    ensures s != [] ==> r[0] == ToUpper(s[0])
    ensures forall i :: 0 < i < |s| ==> r[i] == ToLower(s[i])
  {
    if s == [] then [] else [ToUpper(s[0])] + Lower(s[1..])
  }

  /** `str.title()` from a position whose preceding character was a letter
      (`afterLetter`) or not: a letter is upper-cased when it starts a run of
      letters and lower-cased otherwise; other characters are kept. */
  function TitleFrom(s: string, afterLetter: bool): (r: string)
    ensures |r| == |s|
    decreases |s|
  {
    if s == [] then []
    else
      var c := s[0];
      var d := if !IsLetter(c) then c else if afterLetter then ToLower(c) else ToUpper(c);
      [d] + TitleFrom(s[1..], IsLetter(c))
  }

  /** `s.title()`. */
  function Title(s: string): string {
    TitleFrom(s, false)
  }

  /** What `str.title` puts at position `i`, stated without recursion: a
      letter preceded by a letter is lower-cased, any other letter is
      upper-cased, every other character is kept. */
  function TitleCharAt(s: string, i: nat): char
    requires i < |s|
  {
    var c := s[i];
    if !IsLetter(c) then c
    else if i > 0 && IsLetter(s[i - 1]) then ToLower(c)
    else ToUpper(c)
  }

  lemma {:induction false} TitleFromAt(s: string, afterLetter: bool, i: nat)
    requires i < |s|
    ensures |TitleFrom(s, afterLetter)| == |s|
    ensures TitleFrom(s, afterLetter)[i] ==
      if !IsLetter(s[i]) then s[i]
      else if (if i == 0 then afterLetter else IsLetter(s[i - 1])) then ToLower(s[i])
      else ToUpper(s[i])
    decreases |s|
  {
    if i == 0 {
      if |s| > 1 {
        TitleFromAt(s[1..], IsLetter(s[0]), 0);
      } else {
        assert s[1..] == [];
      }
    } else {
      TitleFromAt(s[1..], IsLetter(s[0]), i - 1);
      if i - 1 == 0 {
        assert s[1..][i - 1] == s[i];
      } else {
        assert s[1..][i - 2] == s[i - 1];
      }
    }
  }

  /** `Title` agrees with the position-wise description `TitleCharAt`. */
  lemma TitleAt(s: string, i: nat)
    requires i < |s|
    ensures |Title(s)| == |s| && Title(s)[i] == TitleCharAt(s, i)
  {
    TitleFromAt(s, false, i);
  }

  /** Title-casing works piece by piece: the second piece continues from
      whether the first ended in a letter. */
  lemma {:induction false} TitleFromConcat(a: string, b: string, afterLetter: bool)
    ensures TitleFrom(a + b, afterLetter) ==
      TitleFrom(a, afterLetter) + TitleFrom(b, if a == [] then afterLetter else IsLetter(a[|a| - 1]))
    decreases |a|
  {
    if a == [] {
      assert a + b == b;
    } else {
      assert (a + b)[1..] == a[1..] + b;
      TitleFromConcat(a[1..], b, IsLetter(a[0]));
    }
  }

  /** Title-casing a title-cased string changes nothing. */
  lemma TitleIdempotent(s: string)
    ensures Title(Title(s)) == Title(s)
  {
    var t := Title(s);
    if |s| > 0 { TitleAt(s, 0); }
    assert |t| == |s|;
    forall i | 0 <= i < |s|
      ensures Title(t)[i] == t[i]
    {
      TitleAt(s, i);
      TitleAt(t, i);
      if i > 0 { TitleAt(s, i - 1); }
    }
    if |s| > 0 { TitleAt(t, 0); }
  }

  /** `p` occurs in `s` starting at index `i`. */
  predicate OccursAt(s: string, p: string, i: nat) {
    i + |p| <= |s| && s[i..i + |p|] == p
  }

  /** `p` is a substring of `s`. */
  predicate Contains(s: string, p: string) {
    exists i: nat | i <= |s| :: OccursAt(s, p, i)
  }

  /** SQLite's `s LIKE '%' || p || '%'` without wildcards inside `p`:
      a substring test that folds ASCII case. */
  predicate ContainsIgnoringCase(s: string, p: string) {
    Contains(Lower(s), Lower(p))
  }

  /** An exact occurrence is also a case-insensitive one. */
  lemma ContainsIgnoringCaseOfContains(s: string, p: string)
    requires Contains(s, p)
    ensures ContainsIgnoringCase(s, p)
  {
    var i: nat :| i <= |s| && OccursAt(s, p, i);
    assert Lower(s)[i..i + |p|] == Lower(p);
    assert OccursAt(Lower(s), Lower(p), i);
  }

  /** The case of either side does not matter. */
  lemma ContainsIgnoringCaseFolds(s: string, p: string)
    ensures ContainsIgnoringCase(s, p) <==> ContainsIgnoringCase(Lower(s), p)
    ensures ContainsIgnoringCase(s, p) <==> ContainsIgnoringCase(s, Lower(p))
  {
    assert Lower(Lower(s)) == Lower(s);
    assert Lower(Lower(p)) == Lower(p);
  }

  /** SQLite's BINARY collation on TEXT: lexicographic order of the
      characters (UTF-8 byte order agrees with code-point order). */
  predicate LexLe(a: string, b: string)
    decreases |a|
  {
    a == [] || (b != [] && (a[0] < b[0] || (a[0] == b[0] && LexLe(a[1..], b[1..]))))
  }

  lemma {:induction false} LexLeReflexive(a: string)
    ensures LexLe(a, a)
    decreases |a|
  {
    if a != [] { LexLeReflexive(a[1..]); }
  }

  lemma {:induction false} LexLeTotal(a: string, b: string)
    ensures LexLe(a, b) || LexLe(b, a)
    decreases |a|
  {
    if a != [] && b != [] && a[0] == b[0] { LexLeTotal(a[1..], b[1..]); }
  }

  lemma {:induction false} LexLeTransitive(a: string, b: string, c: string)
    requires LexLe(a, b) && LexLe(b, c)
    ensures LexLe(a, c)
    decreases |a|
  {
    if a != [] && a[0] == b[0] && b[0] == c[0] {
      LexLeTransitive(a[1..], b[1..], c[1..]);
    }
  }
}
