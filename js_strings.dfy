/** The JavaScript string behaviour the /api/generate handler relies on
    (truthiness, `includes`, `toLowerCase`, `slice`, global `replace` with a
    literal pattern, `trim`), restated over Dafny strings.

    A Dafny `char` is a Unicode scalar value, whereas a JavaScript string is a
    sequence of UTF-16 code units; the two agree on every string made of
    characters of the Basic Multilingual Plane. */
module JsStrings {

  datatype Option<+T> = None | Some(value: T)

  /** Truthiness of a request field that is either absent or a string:
      `undefined` and "" are falsy, every other string is truthy. */
  predicate Truthy(v: Option<string>) {
    v.Some? && v.value != ""
  }

  /** The text a template literal produces for `${v}`: an absent value
      prints as "undefined". */
  function Interpolate(v: Option<string>): string {
    match v
    case None => "undefined"
    case Some(s) => s
  }

  // ---------------------------------------------------------------------
  // Occurrence of a substring: the reference definition for `includes`.

  ghost predicate OccursAt(s: string, p: string, i: int) {
    0 <= i <= |s| - |p| && s[i..i + |p|] == p
  }

  ghost predicate Occurs(s: string, p: string) {
    exists i :: OccursAt(s, p, i)
  }

  /** A string occurs in any concatenation that has it as a middle part,
      and can be cut back out of it. */
  lemma OccursInMiddle(a: string, b: string, c: string)
    ensures OccursAt(a + b + c, b, |a|)
    ensures (a + b + c)[|a|..|a + b + c| - |c|] == b
  {
    assert (a + b + c)[|a|..|a| + |b|] == b;
  }

  /** A labelled value in the middle of a concatenation can be found, label
      included, and cut back out. */
  lemma LabelledInMiddle(head: string, tag: string, value: string, tail: string)
    ensures OccursAt(head + (tag + value) + tail, tag + value, |head|)
    ensures var s := head + (tag + value) + tail;
      s[|head| + |tag|..|s| - |tail|] == value
  {
    var s := head + (tag + value) + tail;
    assert s[|head|..|head| + |tag| + |value|] == tag + value;
    assert s[|head| + |tag|..|s| - |tail|] == value;
  }

  /** `s.includes(p)`: tries every start position from left to right. */
  function Includes(s: string, p: string): bool
    decreases |s|
  {
    if |s| < |p| then false
    else if s[..|p|] == p then true
    else Includes(s[1..], p)
  }

  /** The scan finds p exactly when p occurs somewhere in s. */
  lemma {:induction false} IncludesIsOccurs(s: string, p: string)
    ensures Includes(s, p) <==> Occurs(s, p)
    decreases |s|
  {
    if |s| < |p| {
    } else if s[..|p|] == p {
      assert OccursAt(s, p, 0);
    } else {
      IncludesIsOccurs(s[1..], p);
      if Occurs(s, p) {
        var i :| OccursAt(s, p, i);
        assert i != 0;
        assert s[1..][i - 1..i - 1 + |p|] == s[i..i + |p|];
        assert OccursAt(s[1..], p, i - 1);
      }
      if Occurs(s[1..], p) {
        var i :| OccursAt(s[1..], p, i);
        assert s[1..][i..i + |p|] == s[i + 1..i + 1 + |p|];
        assert OccursAt(s, p, i + 1);
      }
    }
  }

  // ---------------------------------------------------------------------
  // toLowerCase, restricted to the ASCII letters.

  predicate IsAsciiUpper(c: char) {
    'A' <= c <= 'Z'
  }

  function LowerAscii(c: char): char {
    if IsAsciiUpper(c) then (c as int - 'A' as int + 'a' as int) as char else c
  }

  /** `s.toLowerCase()` for ASCII: every capital A-Z becomes its small
      letter, every other character is kept. */
  function ToLower(s: string): (r: string)
    ensures |r| == |s|
    ensures forall i :: 0 <= i < |s| ==> !IsAsciiUpper(r[i])
    ensures forall i :: 0 <= i < |s| ==>
      if IsAsciiUpper(s[i]) then r[i] as int == s[i] as int + 32 else r[i] == s[i]
  {
    if s == [] then [] else [LowerAscii(s[0])] + ToLower(s[1..])
  }

  // ---------------------------------------------------------------------
  // slice with a negative start.

  /** `s.slice(-n)` for n >= 1: the start index is max(|s| - n, 0).
      (`slice(-0)` is `slice(0)`, the whole string, and is not needed.) */
  function SliceFromEnd(s: string, n: nat): (r: string)
    requires 0 < n
    ensures |r| == if |s| <= n then |s| else n
    ensures r == s[|s| - |r|..]
  {
    var start := if |s| - n < 0 then 0 else |s| - n;
    s[start..]
  }

  // ---------------------------------------------------------------------
  // Global replacement of a literal pattern by the empty string.

  /** `s.replace(/p/g, "")` for a non-empty literal pattern p: matches are
      searched from left to right, a match is deleted and the search resumes
      after it, so matches never overlap. */
  function RemoveAll(s: string, p: string): (r: string)
    requires p != []
    ensures |r| <= |s|
    decreases |s|
  {
    if |s| < |p| then s
    else if s[..|p|] == p then RemoveAll(s[|p|..], p)
    else [s[0]] + RemoveAll(s[1..], p)
  }

  /** s without the characters in m, order kept. */
  function Without(s: string, m: set<char>): (r: string)
    ensures |r| <= |s|
    ensures forall i :: 0 <= i < |r| ==> r[i] !in m
  {
    if s == [] then []
    else if s[0] in m then Without(s[1..], m)
    else [s[0]] + Without(s[1..], m)
  }

  lemma {:induction false} WithoutConcat(a: string, b: string, m: set<char>)
    ensures Without(a + b, m) == Without(a, m) + Without(b, m)
    decreases |a|
  {
    if a == [] {
      assert a + b == b;
    } else {
      assert (a + b)[1..] == a[1..] + b;
      WithoutConcat(a[1..], b, m);
    }
  }

  /** Removing a one-character pattern leaves no occurrence of that character. */
  lemma {:induction false} RemoveAllChar(s: string, c: char)
    ensures forall i :: 0 <= i < |RemoveAll(s, [c])| ==> RemoveAll(s, [c])[i] != c
    decreases |s|
  {
    if |s| >= 1 {
      RemoveAllChar(s[1..], c);
    }
  }

  /** Removing a pattern made only of characters in m deletes nothing but
      characters in m: every other character survives, in order. */
  lemma {:induction false} RemoveAllKeepsOthers(s: string, p: string, m: set<char>)
    requires p != []
    requires forall i :: 0 <= i < |p| ==> p[i] in m
    ensures Without(RemoveAll(s, p), m) == Without(s, m)
    decreases |s|
  {
    if |s| < |p| {
    } else if s[..|p|] == p {
      RemoveAllKeepsOthers(s[|p|..], p, m);
      assert s == p + s[|p|..];
      WithoutConcat(p, s[|p|..], m);
      WithoutOfMarkersOnly(p, m);
    } else {
      RemoveAllKeepsOthers(s[1..], p, m);
      assert s == [s[0]] + s[1..];
      WithoutConcat([s[0]], s[1..], m);
      WithoutConcat([s[0]], RemoveAll(s[1..], p), m);
    }
  }

  lemma {:induction false} WithoutOfMarkersOnly(p: string, m: set<char>)
    requires forall i :: 0 <= i < |p| ==> p[i] in m
    ensures Without(p, m) == []
    decreases |p|
  {
    if p != [] {
      WithoutOfMarkersOnly(p[1..], m);
    }
  }

  /** A pattern whose first character is in m has no match in a string
      that contains no character of m. */
  lemma NoMemberNoMatch(s: string, p: string, m: set<char>)
    requires p != [] && p[0] in m
    requires forall i :: 0 <= i < |s| ==> s[i] !in m
    ensures !Occurs(s, p)
  {
    forall i ensures !OccursAt(s, p, i) {
      if 0 <= i <= |s| - |p| {
        assert s[i..i + |p|][0] == s[i];
      }
    }
  }

  /** A string with no match is left unchanged. */
  lemma {:induction false} RemoveAllNoMatch(s: string, p: string)
    requires p != []
    requires !Occurs(s, p)
    ensures RemoveAll(s, p) == s
    decreases |s|
  {
    if |s| >= |p| {
      assert !OccursAt(s, p, 0);
      forall i | OccursAt(s[1..], p, i) ensures OccursAt(s, p, i + 1) {
        assert s[1..][i..i + |p|] == s[i + 1..i + 1 + |p|];
      }
      RemoveAllNoMatch(s[1..], p);
    }
  }

  /** A string with a match gets strictly shorter. */
  lemma {:induction false} RemoveAllShrinks(s: string, p: string)
    requires p != []
    requires Occurs(s, p)
    ensures |RemoveAll(s, p)| < |s|
    decreases |s|
  {
    var i :| OccursAt(s, p, i);
    if s[..|p|] != p {
      assert i != 0;
      assert s[1..][i - 1..i - 1 + |p|] == s[i..i + |p|];
      assert OccursAt(s[1..], p, i - 1);
      RemoveAllShrinks(s[1..], p);
    }
  }

  // ---------------------------------------------------------------------
  // trim

  /** The ECMAScript WhiteSpace and LineTerminator code points, which is what
      `trim` removes: TAB, LF, VT, FF, CR, the space separators of Unicode
      category Zs, LINE SEPARATOR, PARAGRAPH SEPARATOR and the byte order mark. */
  predicate IsJsSpace(c: char) {
    var n := c as int;
    || (0x09 <= n <= 0x0D) || n == 0x20 || n == 0xA0 || n == 0x1680
    || (0x2000 <= n <= 0x200A) || n == 0x2028 || n == 0x2029 || n == 0x202F
    || n == 0x205F || n == 0x3000 || n == 0xFEFF
  }

  ghost predicate AllSpace(s: string) {
    forall i :: 0 <= i < |s| ==> IsJsSpace(s[i])
  }

  /** Neither end of s is white space. */
  ghost predicate Trimmed(s: string) {
    s == [] || (!IsJsSpace(s[0]) && !IsJsSpace(s[|s| - 1]))
  }

  /** s is white space, then r starting at index i, then white space. */
  ghost predicate PaddedAt(s: string, r: string, i: int) {
    0 <= i <= |s| - |r| && s[i..i + |r|] == r && AllSpace(s[..i]) && AllSpace(s[i + |r|..])
  }

  function TrimStart(s: string): (r: string)
    ensures |r| <= |s| && r == s[|s| - |r|..]
    ensures AllSpace(s[..|s| - |r|])
    ensures r == [] || !IsJsSpace(r[0])
  {
    if s != [] && IsJsSpace(s[0]) then
      var r := TrimStart(s[1..]);
      assert s[..|s| - |r|] == [s[0]] + s[1..][..|s| - 1 - |r|];
      r
    else s
  }

  function TrimEnd(s: string): (r: string)
    ensures |r| <= |s| && r == s[..|r|]
    ensures AllSpace(s[|r|..])
    ensures r == [] || !IsJsSpace(r[|r| - 1])
  {
    if s != [] && IsJsSpace(s[|s| - 1]) then
      var t := s[..|s| - 1];
      var r := TrimEnd(t);
      assert s[..|r|] == t[..|r|];
      assert s[|r|..] == t[|r|..] + [s[|s| - 1]];
      r
    else s
  }

  /** `s.trim()`: s with the white space at both ends removed. */
  function Trim(s: string): (r: string)
    ensures Trimmed(r)
    ensures PaddedAt(s, r, |s| - |TrimStart(s)|)
  {
    var t := TrimStart(s);
    var r := TrimEnd(t);
    PaddedBySteps(s, t, r);
    r
  }

  /** White space cut from the front and then from the back of s is white
      space around what is left. */
  lemma PaddedBySteps(s: string, t: string, r: string)
    requires |t| <= |s| && t == s[|s| - |t|..] && AllSpace(s[..|s| - |t|])
    requires |r| <= |t| && r == t[..|r|] && AllSpace(t[|r|..])
    requires t == [] || !IsJsSpace(t[0])
    requires r == [] || !IsJsSpace(r[|r| - 1])
    ensures PaddedAt(s, r, |s| - |t|) && Trimmed(r)
  {
    var i := |s| - |t|;
    assert s[i..i + |r|] == t[..|r|];
    assert s[i + |r|..] == t[|r|..];
    assert r != [] ==> r[0] == t[0];
  }

  lemma {:induction false} TrimStartAt(s: string, i: nat)
    requires i <= |s| && AllSpace(s[..i])
    requires i == |s| || !IsJsSpace(s[i])
    ensures TrimStart(s) == s[i..]
    decreases i
  {
    if i > 0 {
      assert IsJsSpace(s[..i][0]);
      assert s[1..][..i - 1] == s[..i][1..];
      TrimStartAt(s[1..], i - 1);
    }
  }

  lemma {:induction false} TrimEndAt(s: string, j: nat)
    requires j <= |s| && AllSpace(s[j..])
    requires j == 0 || !IsJsSpace(s[j - 1])
    ensures TrimEnd(s) == s[..j]
    decreases |s| - j
  {
    if j < |s| {
      assert IsJsSpace(s[j..][|s| - 1 - j]);
      assert s[..|s| - 1][j..] == s[j..|s| - 1];
      TrimEndAt(s[..|s| - 1], j);
    }
  }

  /** `trim` is characterised by its contract: the only trimmed string that
      s consists of, up to white space at its ends, is Trim(s). */
  lemma TrimUnique(s: string, r: string, i: int)
    requires Trimmed(r) && PaddedAt(s, r, i)
    ensures Trim(s) == r
  {
    if r == [] {
      assert s == s[..i] + s[i..];
      assert AllSpace(s[..|s|]);
      TrimStartAt(s, |s|);
    } else {
      assert s[i] == r[0];
      TrimStartAt(s, i);
      var t := s[i..];
      assert t[|r|..] == s[i + |r|..];
      assert t[|r| - 1] == r[|r| - 1];
      TrimEndAt(t, |r|);
    }
  }

  /** Trimming a string whose ends are not white space changes nothing. */
  lemma TrimOfTrimmed(s: string)
    requires Trimmed(s)
    ensures Trim(s) == s
  {
    assert s[..0] == [] && s[|s|..] == [];
    TrimUnique(s, s, 0);
  }
}
