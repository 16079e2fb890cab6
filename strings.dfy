/** String primitives of the PHP runtime that the media source relies on:
    trim/ltrim/rtrim with a character list, explode/implode on one
    separator character, ASCII strtolower and the string case of empty(). */
module Strings {

  /** The characters PHP's trim() strips when no list is given. */
  const Whitespace: set<char> := {' ', '\t', '\n', '\r', '\0', '\U{000B}'}

  const Slash: set<char> := {'/'}

  /** Every character of s from position lo up to position hi is in cs. */
  predicate AllIn(s: string, lo: int, hi: int, cs: set<char>)
  {
    forall i :: lo <= i < hi && 0 <= i < |s| ==> s[i] in cs
  }

  /** ltrim($s, $cs): drops the leading characters that are in cs. */
  function LTrim(s: string, cs: set<char>): (r: string)
    ensures |r| <= |s| && r == s[|s| - |r|..]
    ensures r == [] || r[0] !in cs
    ensures AllIn(s, 0, |s| - |r|, cs)
    decreases |s|
  {
    if |s| > 0 && s[0] in cs then LTrim(s[1..], cs) else s
  }

  /** rtrim($s, $cs): drops the trailing characters that are in cs. */
  function RTrim(s: string, cs: set<char>): (r: string)
    ensures |r| <= |s| && r == s[..|r|]
    ensures r == [] || r[|r| - 1] !in cs
    ensures AllIn(s, |r|, |s|, cs)
    decreases |s|
  {
    if |s| > 0 && s[|s| - 1] in cs then RTrim(s[..|s| - 1], cs) else s
  }

  /** trim($s, $cs): both ends. */
  function Trim(s: string, cs: set<char>): (r: string)
    ensures |r| <= |s|
    ensures r == [] || (r[0] !in cs && r[|r| - 1] !in cs)
  {
    RTrim(LTrim(s, cs), cs)
  }

  /** trim returns the slice of s that starts after its leading characters in
      cs and stops before its trailing ones: only characters of cs are removed. */
  lemma TrimIsSlice(s: string, cs: set<char>)
    ensures exists a :: TrimSlice(s, cs, a, Trim(s, cs))
  {
    var l := LTrim(s, cs);
    SliceOfSuffix(s, l, RTrim(l, cs), cs);
    assert TrimSlice(s, cs, |s| - |l|, Trim(s, cs));
  }

  /** Cutting a prefix of characters in cs and then a suffix of characters
      in cs leaves a slice whose outside is all in cs. */
  lemma SliceOfSuffix(s: string, l: string, r: string, cs: set<char>)
    requires |l| <= |s| && l == s[|s| - |l|..] && AllIn(s, 0, |s| - |l|, cs)
    requires |r| <= |l| && r == l[..|r|] && AllIn(l, |r|, |l|, cs)
    ensures TrimSlice(s, cs, |s| - |l|, r)
  {
    var a := |s| - |l|;
    forall i | a + |r| <= i < |s|
      ensures s[i] in cs
    {
      assert s[i] == l[i - a];
    }
  }

  /** r is the slice of s starting at a, and every character of s outside
      that slice is in cs. */
  predicate TrimSlice(s: string, cs: set<char>, a: int, r: string)
  {
    && 0 <= a <= |s| - |r| && r == s[a..a + |r|]
    && (forall i :: 0 <= i < a ==> s[i] in cs)
    && (forall i :: a + |r| <= i < |s| ==> s[i] in cs)
  }

  /** Trimming a string whose ends are not in cs changes nothing. */
  lemma TrimUntouched(s: string, cs: set<char>)
    requires s == [] || (s[0] !in cs && s[|s| - 1] !in cs)
    ensures LTrim(s, cs) == s && RTrim(s, cs) == s && Trim(s, cs) == s
  {
  }

  /** Trimming a string that no longer has the characters at its ends changes nothing. */
  lemma {:induction false} TrimIdempotent(s: string, cs: set<char>)
    ensures Trim(Trim(s, cs), cs) == Trim(s, cs)
  {
    var t := Trim(s, cs);
    if t != [] {
      assert LTrim(t, cs) == t;
      assert RTrim(t, cs) == t;
    }
  }

  /** explode($sep, $s): the pieces between the separators; always at least one. */
  function Explode(s: string, sep: char): (parts: seq<string>)
    ensures |parts| >= 1
  {
    if s == [] then [""]
    else
      var init := Explode(s[..|s| - 1], sep);
      var c := s[|s| - 1];
      if c == sep then init + [""]
      else init[..|init| - 1] + [init[|init| - 1] + [c]]
  }

  /** implode($sep, $parts). */
  function Implode(parts: seq<string>, sep: char): string
  {
    if parts == [] then ""
    else if |parts| == 1 then parts[0]
    else Implode(parts[..|parts| - 1], sep) + [sep] + parts[|parts| - 1]
  }

  /** No piece of explode holds the separator. */
  lemma {:induction false} ExplodePiecesFree(s: string, sep: char)
    ensures forall k :: 0 <= k < |Explode(s, sep)| ==> sep !in Explode(s, sep)[k]
  {
    if s != [] {
      ExplodePiecesFree(s[..|s| - 1], sep);
    }
  }

  /** implode undoes explode. */
  lemma {:induction false} ImplodeExplode(s: string, sep: char)
    ensures Implode(Explode(s, sep), sep) == s
  {
    if s != [] {
      var pre := s[..|s| - 1];
      var init := Explode(pre, sep);
      var c := s[|s| - 1];
      ImplodeExplode(pre, sep);
      assert s == pre + [c];
      if c == sep {
        assert (init + [""])[..|init|] == init;
      } else {
        var m := |init|;
        var parts := init[..m - 1] + [init[m - 1] + [c]];
        assert parts[..m - 1] == init[..m - 1];
        if m > 1 {
          assert Implode(init, sep) == Implode(init[..m - 1], sep) + [sep] + init[m - 1];
        }
      }
    }
  }

  /** The last piece of explode (what array_pop returns). */
  function LastPart(s: string, sep: char): (r: string)
    ensures sep !in r
    ensures |r| <= |s|
  {
    if s == [] || s[|s| - 1] == sep then ""
    else LastPart(s[..|s| - 1], sep) + [s[|s| - 1]]
  }

  /** The last piece is a suffix of s, preceded by the separator unless it
      is the whole of s, which happens exactly when s has no separator. */
  lemma {:induction false} LastPartSuffix(s: string, sep: char)
    ensures var r := LastPart(s, sep);
            && s[|s| - |r|..] == r
            && (|r| == |s| <==> sep !in s)
            && (|r| < |s| ==> s[|s| - |r| - 1] == sep)
  {
    if s != [] {
      var pre := s[..|s| - 1];
      assert s == pre + [s[|s| - 1]];
      if s[|s| - 1] != sep {
        LastPartSuffix(pre, sep);
        var r := LastPart(s, sep);
        assert s[|s| - |r|..] == pre[|pre| - |r| + 1..] + [s[|s| - 1]];
      }
    }
  }

  /** Joining one more part at the end puts one separator before it. */
  lemma ImplodeSnoc(parts: seq<string>, x: string, sep: char)
    requires parts != []
    ensures Implode(parts + [x], sep) == Implode(parts, sep) + [sep] + x
  {
    assert (parts + [x])[..|parts|] == parts;
  }

  /** LastPart is the last piece of explode. */
  lemma {:induction false} LastPartIsLastPiece(s: string, sep: char)
    ensures var parts := Explode(s, sep);
            LastPart(s, sep) == parts[|parts| - 1]
  {
    if s != [] {
      LastPartIsLastPiece(s[..|s| - 1], sep);
    }
  }

  /** explode gives one piece exactly when the separator does not occur. */
  lemma {:induction false} ExplodeSingle(s: string, sep: char)
    ensures |Explode(s, sep)| == 1 <==> sep !in s
  {
    if s != [] {
      var pre := s[..|s| - 1];
      ExplodeSingle(pre, sep);
      assert s == pre + [s[|s| - 1]];
    }
  }

  /** What stands before the separator of the last piece is the implode of the other pieces. */
  lemma {:induction false} BeforeLastPart(s: string, sep: char)
    requires sep in s
    ensures var r := LastPart(s, sep);
            var parts := Explode(s, sep);
            |r| < |s| && s[..|s| - |r| - 1] == Implode(parts[..|parts| - 1], sep)
  {
    LastPartSuffix(s, sep);
    var pre := s[..|s| - 1];
    var init := Explode(pre, sep);
    var c := s[|s| - 1];
    var r := LastPart(s, sep);
    assert s == pre + [c];
    if c == sep {
      assert (init + [""])[..|init|] == init;
      ImplodeExplode(pre, sep);
    } else {
      var m := |init|;
      var parts := init[..m - 1] + [init[m - 1] + [c]];
      assert parts[..m - 1] == init[..m - 1];
      assert sep in pre;
      BeforeLastPart(pre, sep);
      LastPartIsLastPiece(pre, sep);
      LastPartSuffix(pre, sep);
      assert s[..|s| - |r| - 1] == pre[..|pre| - |r| + 1 - 1];
    }
  }

  /** ASCII strtolower on one character. */
  function LowerChar(c: char): (d: char)
    ensures 'A' <= c <= 'Z' ==> d as int == c as int + 32
    ensures !('A' <= c <= 'Z') ==> d == c
  {
    if 'A' <= c <= 'Z' then (c as int + 32) as char else c
  }

  /** ASCII strtolower. */
  function Lower(s: string): string
  {
    if s == [] then [] else [LowerChar(s[0])] + Lower(s[1..])
  }

  /** strtolower keeps the length, lowers every character, and so neither
      adds nor removes a character that is not a letter. */
  lemma {:induction false} LowerChars(s: string, c: char)
    ensures |Lower(s)| == |s|
    ensures forall i :: 0 <= i < |s| ==> Lower(s)[i] == LowerChar(s[i])
    ensures !('A' <= c <= 'Z') && !('a' <= c <= 'z') ==> (c in Lower(s) <==> c in s)
  {
    if s != [] {
      LowerChars(s[1..], c);
      assert s == [s[0]] + s[1..];
    }
  }

  /** empty($s) for a string: true for "" and for "0". */
  predicate PhpEmpty(s: string)
  {
    s == "" || s == "0"
  }
}
