/**
 * The operations of Go's `strings` package that the service relies on,
 * on strings taken as sequences of characters: cut-set trimming
 * (`strings.Trim`, `strings.TrimSpace`), splitting on a one-character
 * separator (`strings.Split`), joining (`strings.Join`), substring search
 * (`strings.Contains`) and upper-casing (`strings.ToUpper`).
 */
module GoStrings {

  /** The code points for which Go's unicode.IsSpace holds; strings.TrimSpace removes exactly these. */
  const WhiteSpace: set<char> := {
    ' ', '\t', '\n', '\U{0B}', '\U{0C}', '\r', '\U{85}', '\U{A0}', '\U{1680}',
    '\U{2000}', '\U{2001}', '\U{2002}', '\U{2003}', '\U{2004}', '\U{2005}',
    '\U{2006}', '\U{2007}', '\U{2008}', '\U{2009}', '\U{200A}',
    '\U{2028}', '\U{2029}', '\U{202F}', '\U{205F}', '\U{3000}'
  }

  predicate IsSpace(c: char) {
    c in WhiteSpace
  }

  /** Removes the longest prefix made only of characters in `cut` (strings.TrimLeft). */
  function TrimLeft(s: string, cut: set<char>): string
    decreases |s|
  {
    if |s| > 0 && s[0] in cut then TrimLeft(s[1..], cut) else s
  }

  /** Removes the longest suffix made only of characters in `cut` (strings.TrimRight). */
  function TrimRight(s: string, cut: set<char>): string
    decreases |s|
  {
    if |s| > 0 && s[|s| - 1] in cut then TrimRight(s[..|s| - 1], cut) else s
  }

  /** TrimLeft keeps a suffix of its input that does not start with a cut-set character. */
  lemma {:induction false} TrimLeftShape(s: string, cut: set<char>)
    ensures var r := TrimLeft(s, cut);
      |r| <= |s| && r == s[|s| - |r|..] && (r == [] || r[0] !in cut)
    decreases |s|
  {
    if |s| > 0 && s[0] in cut {
      TrimLeftShape(s[1..], cut);
    }
  }

  /** TrimRight keeps a prefix of its input that does not end with a cut-set character. */
  lemma {:induction false} TrimRightShape(s: string, cut: set<char>)
    ensures var r := TrimRight(s, cut);
      |r| <= |s| && r == s[..|r|] && (r == [] || r[|r| - 1] !in cut)
    decreases |s|
  {
    if |s| > 0 && s[|s| - 1] in cut {
      TrimRightShape(s[..|s| - 1], cut);
    }
  }

  /** strings.Trim(s, cutset): both ends stripped of cut-set characters. */
  function Trim(s: string, cut: set<char>): string {
    TrimRight(TrimLeft(s, cut), cut)
  }

  /** Trim keeps a piece of its input that neither starts nor ends with a cut-set character. */
  lemma TrimShape(s: string, cut: set<char>)
    ensures var r := Trim(s, cut);
      |r| <= |s| && (r == [] || (r[0] !in cut && r[|r| - 1] !in cut))
  {
    TrimLeftShape(s, cut);
    TrimRightShape(TrimLeft(s, cut), cut);
  }

  /** strings.TrimSpace. */
  function TrimSpace(s: string): string {
    Trim(s, WhiteSpace)
  }

  /** strings.Join: the parts with `sep` between neighbours. */
  function Join(parts: seq<string>, sep: string): string {
    if |parts| == 0 then ""
    else if |parts| == 1 then parts[0]
    else parts[0] + sep + Join(parts[1..], sep)
  }

  /** strings.Split with a one-character separator: the maximal runs between separators. */
  function Split(s: string, sep: char): seq<string> {
    if s == [] then [[]]
    else
      var rest := Split(s[1..], sep);
      if s[0] == sep then [[]] + rest
      else if rest == [] then [[s[0]]]
      else [[s[0]] + rest[0]] + rest[1..]
  }

  /**
   * There is always at least one part, no part holds the separator, and
   * joining the parts back with the separator gives the input again.
   */
  lemma SplitShape(s: string, sep: char)
    ensures var parts := Split(s, sep);
      && |parts| >= 1
      && (forall i :: 0 <= i < |parts| ==> sep !in parts[i])
      && Join(parts, [sep]) == s
  {
    SplitSepFree(s, sep);
    SplitJoinBack(s, sep);
  }

  lemma {:induction false} SplitSepFree(s: string, sep: char)
    ensures |Split(s, sep)| >= 1
    ensures forall i :: 0 <= i < |Split(s, sep)| ==> sep !in Split(s, sep)[i]
    decreases |s|
  {
    if s != [] {
      SplitSepFree(s[1..], sep);
      var rest := Split(s[1..], sep);
      var parts := Split(s, sep);
      if s[0] != sep {
        forall i | 0 <= i < |parts| ensures sep !in parts[i] {
          if i > 0 {
            assert parts[i] == rest[i];
          } else {
            assert parts[0] == [s[0]] + rest[0];
          }
        }
      }
    }
  }

  lemma {:induction false} SplitJoinBack(s: string, sep: char)
    ensures Join(Split(s, sep), [sep]) == s
    decreases |s|
  {
    if s != [] {
      SplitJoinBack(s[1..], sep);
      SplitSepFree(s[1..], sep);
      var rest := Split(s[1..], sep);
      if s[0] == sep {
        JoinCons([], rest, [sep]);
        assert [sep] + s[1..] == s;
      } else {
        var parts := Split(s, sep);
        assert parts[0] == [s[0]] + rest[0] && parts[1..] == rest[1..];
        if |rest| > 1 {
          assert rest == [rest[0]] + rest[1..];
          JoinCons(rest[0], rest[1..], [sep]);
          JoinCons(parts[0], parts[1..], [sep]);
          assert parts == [parts[0]] + parts[1..];
        }
        assert [s[0]] + s[1..] == s;
      }
    }
  }

  /** strings.Contains: `sub` occurs in `s` as a contiguous substring. */
  predicate Contains(s: string, sub: string) {
    exists i :: 0 <= i <= |s| - |sub| && OccursAt(s, sub, i)
  }

  predicate OccursAt(s: string, sub: string, i: int)
    requires 0 <= i <= |s| - |sub|
  {
    s[i..i + |sub|] == sub
  }

  function UpperChar(c: char): char {
    if 'a' <= c <= 'z' then (c as int - 32) as char else c
  }

  /** strings.ToUpper, for the ASCII letters. */
  function ToUpper(s: string): (r: string)
    ensures |r| == |s|
    ensures forall i :: 0 <= i < |s| ==> r[i] == UpperChar(s[i])
  {
    seq(|s|, i requires 0 <= i < |s| => UpperChar(s[i]))
  }

  /** The other direction of Split's round trip: splitting what Join produced gives the parts back. */
  lemma {:induction false} SplitJoin(parts: seq<string>, sep: char)
    requires |parts| >= 1
    requires forall i :: 0 <= i < |parts| ==> sep !in parts[i]
    ensures Split(Join(parts, [sep]), sep) == parts
    decreases |parts|, |parts[0]|
  {
    var s := Join(parts, [sep]);
    if |parts| == 1 {
      if parts[0] != [] {
        var p0 := parts[0];
        SplitJoin([p0[1..]], sep);
        assert s[1..] == p0[1..];
        assert s[0] == p0[0] && p0[0] in p0;
        assert [p0[0]] + p0[1..] == p0;
      }
    } else if parts[0] == [] {
      SplitJoin(parts[1..], sep);
      assert s == [sep] + Join(parts[1..], [sep]);
      assert s[1..] == Join(parts[1..], [sep]);
    } else {
      var p0 := parts[0];
      var shorter := [p0[1..]] + parts[1..];
      assert shorter[1..] == parts[1..];
      SplitJoin(shorter, sep);
      assert s[1..] == Join(shorter, [sep]);
      assert s[0] == p0[0] && [p0[0]] + p0[1..] == p0;
    }
  }

  lemma {:induction false} JoinCons(p: string, rest: seq<string>, sep: string)
    requires |rest| >= 1
    ensures Join([p] + rest, sep) == p + sep + Join(rest, sep)
  {
    assert ([p] + rest)[1..] == rest;
  }

  /** Trimming leaves a string alone when neither end is in the cut set. */
  lemma {:induction false} TrimNoop(s: string, cut: set<char>)
    requires s == [] || (s[0] !in cut && s[|s| - 1] !in cut)
    ensures Trim(s, cut) == s
  {
  }

  /** TrimSpace drops a leading blank in front of a string with no white space at either end. */
  lemma {:induction false} TrimSpaceBlank(s: string)
    requires s != [] && !IsSpace(s[0]) && !IsSpace(s[|s| - 1])
    ensures TrimSpace(" " + s) == s
  {
    assert (" " + s)[1..] == s;
    assert TrimLeft(" " + s, WhiteSpace) == TrimLeft(s, WhiteSpace);
  }
}
