/**
  The Python string operations the slugs are built from, on the ASCII range:
  `str.isspace`, `str.strip`, `str.lower`, `str.lstrip(c)` and
  `str.replace(c, d)` for single characters.
*/
module Text {

  /** `c.isspace()` for ASCII: tab, line feed, vertical tab, form feed,
      carriage return, the four separators 0x1C-0x1F, and space. */
  predicate IsSpace(c: char)
  {
    var n := c as int;
    n == 32 || 9 <= n <= 13 || 28 <= n <= 31
  }

  predicate IsUpper(c: char)
  {
    'A' <= c <= 'Z'
  }

  /** `c.lower()` for ASCII. */
  function LowerChar(c: char): (d: char)
    ensures !IsUpper(d)
    ensures !IsUpper(c) ==> d == c
    ensures IsSpace(d) <==> IsSpace(c)
    ensures d == ' ' <==> c == ' '
    ensures d == '/' <==> c == '/'
  {
    if IsUpper(c) then (c as int + 32) as char else c
  }

  /** `s.lower()`: every upper-case letter replaced by its lower-case form. */
  function Lower(s: string): (r: string)
    ensures |r| == |s|
    ensures forall i :: 0 <= i < |r| ==> !IsUpper(r[i])
  {
    seq(|s|, i requires 0 <= i < |s| => LowerChar(s[i]))
  }

  /** Lower-casing neither adds nor removes a slash. */
  lemma LowerKeepsSlash(s: string)
    ensures '/' in Lower(s) <==> '/' in s
  {
    var r := Lower(s);
    if '/' in s {
      var i :| 0 <= i < |s| && s[i] == '/';
      assert r[i] == '/';
    }
    if '/' in r {
      var i :| 0 <= i < |r| && r[i] == '/';
      assert LowerChar(s[i]) == '/';
    }
  }

  /** `s.lstrip()`: the suffix left after dropping the leading whitespace. */
  function LStrip(s: string): (r: string)
    ensures |r| <= |s|
    ensures r != [] ==> !IsSpace(r[0])
  {
    if s != [] && IsSpace(s[0]) then LStrip(s[1..]) else s
  }

  /** What `lstrip()` drops is leading whitespace and nothing else. */
  lemma {:induction false} LStripSuffix(s: string)
    ensures LStrip(s) == s[|s| - |LStrip(s)|..]
    ensures forall i :: 0 <= i < |s| - |LStrip(s)| ==> IsSpace(s[i])
  {
    if s != [] && IsSpace(s[0]) {
      LStripSuffix(s[1..]);
      assert s[1..][|s| - 1 - |LStrip(s)|..] == s[|s| - |LStrip(s)|..];
    }
  }

  /** `s.rstrip()`: the prefix left after dropping the trailing whitespace. */
  function RStrip(s: string): (r: string)
    ensures |r| <= |s| && r == s[..|r|]
    ensures r != [] ==> !IsSpace(r[|r| - 1])
  {
    if s != [] && IsSpace(s[|s| - 1]) then RStrip(s[..|s| - 1]) else s
  }

  /** What `rstrip()` drops is trailing whitespace and nothing else. */
  lemma {:induction false} RStripDropsSpaces(s: string)
    ensures forall i :: |RStrip(s)| <= i < |s| ==> IsSpace(s[i])
  {
    if s != [] && IsSpace(s[|s| - 1]) {
      RStripDropsSpaces(s[..|s| - 1]);
    }
  }

  /** `s.strip()`: neither end of the result is whitespace. */
  function Strip(s: string): (r: string)
    ensures r != [] ==> !IsSpace(r[0]) && !IsSpace(r[|r| - 1])
  {
    RStrip(LStrip(s))
  }

  /** A string that neither starts nor ends with whitespace is its own strip. */
  lemma StripFixed(s: string)
    requires s != [] ==> !IsSpace(s[0]) && !IsSpace(s[|s| - 1])
    ensures Strip(s) == s
  {
    assert LStrip(s) == s;
  }

  /** Lower-casing does not create or remove whitespace, so it commutes with
      stripping. */
  lemma {:induction false} LStripLower(s: string)
    ensures LStrip(Lower(s)) == Lower(LStrip(s))
  {
    if s != [] && IsSpace(s[0]) {
      assert Lower(s)[1..] == Lower(s[1..]);
      LStripLower(s[1..]);
    }
  }

  lemma {:induction false} RStripLower(s: string)
    ensures RStrip(Lower(s)) == Lower(RStrip(s))
  {
    if s != [] && IsSpace(s[|s| - 1]) {
      assert Lower(s)[..|s| - 1] == Lower(s[..|s| - 1]);
      RStripLower(s[..|s| - 1]);
    }
  }

  lemma StripLower(s: string)
    ensures Strip(Lower(s)) == Lower(Strip(s))
  {
    LStripLower(s);
    RStripLower(LStrip(s));
  }

  /** A string without upper-case letters is its own lower-case form. */
  lemma LowerFixed(s: string)
    requires forall i :: 0 <= i < |s| ==> !IsUpper(s[i])
    ensures Lower(s) == s
  {
  }

  /** `s.replace(c, d)` for single characters. */
  function Replace(s: string, c: char, d: char): (r: string)
    requires c != d
    ensures |r| == |s|
    ensures c !in r
  {
    seq(|s|, i requires 0 <= i < |s| => if s[i] == c then d else s[i])
  }

  /** Replacing a character that does not occur changes nothing. */
  lemma ReplaceAbsent(s: string, c: char, d: char)
    requires c != d && c !in s
    ensures Replace(s, c, d) == s
  {
    var r := Replace(s, c, d);
    assert forall i :: 0 <= i < |s| ==> r[i] == s[i];
  }

  /** `s.replace(c, "")`: every occurrence of `c` removed, the rest in order. */
  function Remove(s: string, c: char): (r: string)
    ensures c !in r
    ensures |r| <= |s|
    ensures c !in s ==> r == s
  {
    if s == [] then []
    else (if s[0] == c then [] else [s[0]]) + Remove(s[1..], c)
  }

  lemma {:induction false} RemoveConcat(a: string, b: string, c: char)
    ensures Remove(a + b, c) == Remove(a, c) + Remove(b, c)
  {
    if a != [] {
      var head := if a[0] == c then [] else [a[0]];
      assert (a + b)[0] == a[0] && (a + b)[1..] == a[1..] + b;
      assert Remove(a + b, c) == head + Remove(a[1..] + b, c);
      RemoveConcat(a[1..], b, c);
      assert Remove(a, c) == head + Remove(a[1..], c);
    } else {
      assert a + b == b;
    }
  }

  /** Removing `c` from `c` followed by a string free of `c` leaves that string. */
  lemma RemoveLeading(a: string, c: char)
    requires c !in a
    ensures Remove([c] + a, c) == a
  {
    RemoveConcat([c], a, c);
    assert Remove([c], c) == [];
  }

  /** `s.lstrip(c)` for a single character `c`. */
  function LStripChar(s: string, c: char): (r: string)
    ensures |r| <= |s| && r == s[|s| - |r|..]
    ensures forall i :: 0 <= i < |s| - |r| ==> s[i] == c
    ensures r != [] ==> r[0] != c
  {
    if s != [] && s[0] == c then LStripChar(s[1..], c) else s
  }

  /** Removing every `c` anyway makes a preceding `lstrip(c)` redundant. */
  lemma {:induction false} RemoveAfterLStrip(s: string, c: char)
    ensures Remove(LStripChar(s, c), c) == Remove(s, c)
  {
    if s != [] && s[0] == c {
      RemoveAfterLStrip(s[1..], c);
    }
  }

  /** The position of the last `c` in `s`, as `s.rfind(c)`. */
  function LastIndexOf<T(==)>(s: seq<T>, c: T): (r: int)
    ensures -1 <= r < |s|
    ensures r == -1 <==> c !in s
    ensures r >= 0 ==> s[r] == c && forall j :: r < j < |s| ==> s[j] != c
  {
    if s == [] then -1
    else if s[|s| - 1] == c then |s| - 1
    else
      var init := s[..|s| - 1];
      var r := LastIndexOf(init, c);
      assert c in s <==> c in init by {
        assert s == init + [s[|s| - 1]];
      }
      r
  }

  /** An occurrence with none after it is the last one. */
  lemma {:induction false} LastIndexOfUnique<T>(s: seq<T>, c: T, p: int)
    requires 0 <= p < |s| && s[p] == c
    requires forall j :: p < j < |s| ==> s[j] != c
    ensures LastIndexOf(s, c) == p
  {
    if p < |s| - 1 {
      LastIndexOfUnique(s[..|s| - 1], c, p);
    }
  }
}
