/** String operations the source takes from Python's `str` and JavaScript's
    `String`: substring tests, `split`, `join`, `strip`/`trim`, case mapping
    (ASCII letters only), `replace` of one character, and integer
    rendering/parsing. Strings are sequences of Unicode scalar values, so
    lengths agree with Python's `len`. */
module Text {
  import opened Wrappers

  // ---------------------------------------------------------------------
  // Substrings
  // ---------------------------------------------------------------------

  /** Python `sub in s`, JavaScript `s.includes(sub)`. */
  predicate Contains(s: string, sub: string)
    decreases |s|
  {
    sub <= s || (|s| > 0 && Contains(s[1..], sub))
  }

  /** `sub` occurs in `s` starting at position `i`. */
  predicate OccursAt(s: string, sub: string, i: int)
  {
    0 <= i && i + |sub| <= |s| && s[i..i + |sub|] == sub
  }

  /** `Contains` holds exactly when `sub` occurs at some position of `s`. */
  lemma ContainsIff(s: string, sub: string)
    ensures Contains(s, sub) <==> exists i :: OccursAt(s, sub, i)
  {
    if Contains(s, sub) {
      var i := ContainsWitness(s, sub);
    }
    if exists i :: OccursAt(s, sub, i) {
      var i :| OccursAt(s, sub, i);
      OccursContains(s, sub, i);
    }
  }

  /** A position where a contained `sub` occurs. */
  lemma {:induction false} ContainsWitness(s: string, sub: string) returns (i: nat)
    requires Contains(s, sub)
    ensures OccursAt(s, sub, i)
    decreases |s|
  {
    if sub <= s {
      i := 0;
    } else {
      var j := ContainsWitness(s[1..], sub);
      assert s[1..][j..j + |sub|] == s[j + 1..j + 1 + |sub|];
      i := j + 1;
    }
  }

  /** An occurrence at any position makes `Contains` hold. */
  lemma {:induction false} OccursContains(s: string, sub: string, i: int)
    requires OccursAt(s, sub, i)
    ensures Contains(s, sub)
    decreases i
  {
    if i > 0 {
      assert s[1..][i - 1..i - 1 + |sub|] == s[i..i + |sub|];
      OccursContains(s[1..], sub, i - 1);
    }
  }

  /** Text shorter than `sub` cannot contain it. */
  lemma {:induction false} ShortNoContains(s: string, sub: string)
    requires |s| < |sub|
    ensures !Contains(s, sub)
    decreases |s|
  {
    if |s| > 0 {
      ShortNoContains(s[1..], sub);
    }
  }

  /** Text lacking one of the characters of `sub` cannot contain it. */
  lemma MissingCharNoContains(s: string, sub: string, c: char)
    requires c in sub && c !in s
    ensures !Contains(s, sub)
  {
    ContainsIff(s, sub);
  }

  /** A string that contains `sub` as a prefix contains it. */
  lemma PrefixContains(s: string, sub: string)
    requires sub <= s
    ensures Contains(s, sub)
  {
  }

  /** Appending text on either side keeps an occurrence. */
  lemma {:induction false} ContainsInConcat(a: string, m: string, b: string, sub: string)
    requires Contains(m, sub)
    ensures Contains(a + m + b, sub)
    decreases |a|
  {
    if |a| == 0 {
      assert a + m + b == m + b;
      ContainsExtend(m, b, sub);
    } else {
      assert (a + m + b)[1..] == a[1..] + m + b;
      ContainsInConcat(a[1..], m, b, sub);
    }
  }

  lemma {:induction false} ContainsExtend(m: string, b: string, sub: string)
    requires Contains(m, sub)
    ensures Contains(m + b, sub)
    decreases |m|
  {
    if sub <= m {
      assert sub <= m + b;
    } else {
      assert (m + b)[1..] == m[1..] + b;
      ContainsExtend(m[1..], b, sub);
    }
  }

  // ---------------------------------------------------------------------
  // split / join
  // ---------------------------------------------------------------------

  /** Python `s.split(sep)` for a non-empty separator: the pieces between
      non-overlapping occurrences of `sep`, scanned left to right. */
  function Split(s: string, sep: string): (r: seq<string>)
    requires |sep| > 0
    ensures |r| >= 1
    decreases |s|
  {
    if sep <= s then [""] + Split(s[|sep|..], sep)
    else if |s| == 0 then [""]
    else
      var rest := Split(s[1..], sep);
      [[s[0]] + rest[0]] + rest[1..]
  }

  /** Python `sep.join(parts)`. */
  function Join(parts: seq<string>, sep: string): string
  {
    if |parts| == 0 then ""
    else if |parts| == 1 then parts[0]
    else parts[0] + sep + Join(parts[1..], sep)
  }

  /** Every part shows up in the joined text. */
  lemma {:induction false} JoinHasPart(parts: seq<string>, sep: string, i: nat)
    requires i < |parts|
    ensures Contains(Join(parts, sep), parts[i])
  {
    if |parts| == 1 {
      PrefixContains(parts[0], parts[0]);
    } else if i == 0 {
      PrefixContains(parts[0] + sep + Join(parts[1..], sep), parts[0]);
    } else {
      JoinHasPart(parts[1..], sep, i - 1);
      ContainsInConcat(parts[0] + sep, Join(parts[1..], sep), "", parts[i]);
      assert parts[0] + sep + Join(parts[1..], sep) + "" == Join(parts, sep);
    }
  }

  /** Joining the pieces with the separator gives back the original text. */
  lemma {:induction false} JoinSplit(s: string, sep: string)
    requires |sep| > 0
    ensures Join(Split(s, sep), sep) == s
    decreases |s|
  {
    if sep <= s {
      var t := s[|sep|..];
      JoinSplit(t, sep);
      assert Split(s, sep) == [""] + Split(t, sep);
      JoinAfterEmpty(Split(t, sep), sep);
      assert s == sep + t;
    } else if |s| > 0 {
      var rest := Split(s[1..], sep);
      JoinSplit(s[1..], sep);
      assert Split(s, sep) == [[s[0]] + rest[0]] + rest[1..];
      JoinGlued(s[0], rest, sep);
      assert s == [s[0]] + s[1..];
    }
  }

  /** An empty first part contributes only its separator. */
  lemma JoinAfterEmpty(rest: seq<string>, sep: string)
    requires |rest| > 0
    ensures Join([""] + rest, sep) == sep + Join(rest, sep)
  {
    assert ([""] + rest)[1..] == rest;
  }

  /** A character glued to the front of the first part comes first in the
      joined text. */
  lemma JoinGlued(c: char, rest: seq<string>, sep: string)
    requires |rest| > 0
    ensures Join([[c] + rest[0]] + rest[1..], sep) == [c] + Join(rest, sep)
  {
    var r := [[c] + rest[0]] + rest[1..];
    if |rest| > 1 {
      assert r[1..] == rest[1..];
      assert ([c] + rest[0]) + sep + Join(rest[1..], sep) == [c] + (rest[0] + sep + Join(rest[1..], sep));
    }
  }

  /** The first piece is the text before the first occurrence of `sep`:
      a prefix of `s`, at no position of which `sep` starts, and followed
      either by the end of `s` or by `sep`. */
  lemma {:induction false} SplitFirst(s: string, sep: string)
    requires |sep| > 0
    ensures var p := Split(s, sep)[0];
      && p <= s
      && (p == s || sep <= s[|p|..])
      && forall i :: 0 <= i < |p| ==> !(sep <= s[i..])
    decreases |s|
  {
    if !(sep <= s) && |s| > 0 {
      SplitFirst(s[1..], sep);
      FirstPieceGrows(s, sep, Split(s[1..], sep)[0]);
    }
  }

  /** The inductive step of `SplitFirst`: where `sep` does not start, the
      first character followed by the first piece of the rest is again a
      prefix before the first occurrence. */
  lemma FirstPieceGrows(s: string, sep: string, q: string)
    requires |sep| > 0 && |s| > 0 && !(sep <= s)
    requires q <= s[1..] && (q == s[1..] || sep <= s[1..][|q|..])
    requires forall i :: 0 <= i < |q| ==> !(sep <= s[1..][i..])
    ensures var p := [s[0]] + q;
      && p <= s
      && (p == s || sep <= s[|p|..])
      && forall i :: 0 <= i < |p| ==> !(sep <= s[i..])
  {
    var p := [s[0]] + q;
    forall i | 0 < i < |p|
      ensures !(sep <= s[i..])
    {
      assert s[i..] == s[1..][i - 1..];
    }
    assert s == [s[0]] + s[1..];
    assert s[|p|..] == s[1..][|q|..];
  }

  /** No piece contains the separator. */
  lemma {:induction false} SplitPiecesFree(s: string, sep: string)
    requires |sep| > 0
    ensures forall i :: 0 <= i < |Split(s, sep)| ==> !Contains(Split(s, sep)[i], sep)
    decreases |s|
  {
    var r := Split(s, sep);
    if sep <= s {
      SplitPiecesFree(s[|sep|..], sep);
      assert r[1..] == Split(s[|sep|..], sep);
      forall i | 0 < i < |r|
        ensures !Contains(r[i], sep)
      {
        assert r[i] == r[1..][i - 1];
      }
    } else if |s| > 0 {
      var rest := Split(s[1..], sep);
      SplitPiecesFree(s[1..], sep);
      SplitFirst(s[1..], sep);
      var p := [s[0]] + rest[0];
      assert r[0] == p;
      // `sep` is not a prefix of `p`, since `p` is a prefix of `s`.
      assert s == [s[0]] + s[1..];
      assert p <= s;
      assert !(sep <= p);
      assert p[1..] == rest[0];
      forall i | 0 < i < |r|
        ensures !Contains(r[i], sep)
      {
        assert r[i] == rest[i];
      }
    }
  }

  /** Joining splits off the last part. */
  lemma {:induction false} JoinSnoc(parts: seq<string>, sep: string)
    requires |parts| >= 2
    ensures Join(parts, sep) == Join(parts[..|parts| - 1], sep) + sep + parts[|parts| - 1]
  {
    if |parts| > 2 {
      JoinSnoc(parts[1..], sep);
      assert parts[1..][..|parts| - 2] == parts[..|parts| - 1][1..];
    }
  }

  /** The last piece is a suffix of `s` and, unless it is all of `s`, is
      immediately preceded by `sep`. */
  lemma SplitLast(s: string, sep: string)
    requires |sep| > 0
    ensures var r := Split(s, sep);
      var k := |s| - |r[|r| - 1]|;
      && 0 <= k && s[k..] == r[|r| - 1]
      && (|r| > 1 ==> k >= |sep| && s[k - |sep|..k] == sep)
      && (|r| == 1 ==> k == 0)
  {
    var r := Split(s, sep);
    JoinSplit(s, sep);
    if |r| > 1 {
      JoinSnoc(r, sep);
      SuffixAfterSep(Join(r[..|r| - 1], sep), sep, r[|r| - 1], s);
    } else {
      assert s == r[0];
    }
  }

  /** In `a + sep + last`, `last` is the suffix and `sep` sits just before it. */
  lemma SuffixAfterSep(a: string, sep: string, last: string, s: string)
    requires s == a + sep + last
    ensures |s| - |last| >= |sep|
    ensures s[|s| - |last|..] == last && s[|s| - |last| - |sep|..|s| - |last|] == sep
  {
    assert s[|a| + |sep|..] == last;
    assert s[|a|..|a| + |sep|] == sep;
  }

  /** Splitting undoes joining when no part, followed by all but the last
      character of `sep`, holds `sep`: the occurrences of `sep` are then
      exactly the ones the join put in. */
  lemma {:induction false} SplitJoin(parts: seq<string>, sep: string)
    requires |sep| > 0 && |parts| > 0
    requires forall i :: 0 <= i < |parts| ==> !Contains(parts[i] + sep[..|sep| - 1], sep)
    ensures Split(Join(parts, sep), sep) == parts
  {
    if |parts| == 1 {
      if Contains(parts[0], sep) {
        ContainsExtend(parts[0], sep[..|sep| - 1], sep);
      }
      SplitFree(parts[0], sep);
    } else {
      SplitJoin(parts[1..], sep);
      SplitAtFirst(parts[0], sep, Join(parts[1..], sep));
      assert parts == [parts[0]] + parts[1..];
    }
  }

  /** Joining two neighbouring parts first does not change the joined text. */
  lemma {:induction false} JoinPair(pre: seq<string>, x: string, y: string, post: seq<string>, sep: string)
    ensures Join(pre + [x, y] + post, sep) == Join(pre + [x + sep + y] + post, sep)
  {
    if |pre| == 0 {
      assert pre + [x, y] + post == [x] + ([y] + post);
      assert ([y] + post)[1..] == post;
      assert pre + [x + sep + y] + post == [x + sep + y] + post;
      assert ([x + sep + y] + post)[1..] == post;
    } else {
      JoinPair(pre[1..], x, y, post, sep);
      assert (pre + [x, y] + post)[1..] == pre[1..] + [x, y] + post;
      assert (pre + [x + sep + y] + post)[1..] == pre[1..] + [x + sep + y] + post;
    }
  }

  /** Python `s.split(sep)[0]`. */
  function FirstPiece(s: string, sep: string): (r: string)
    requires |sep| > 0
    ensures r <= s && !Contains(r, sep)
    ensures r == s || sep <= s[|r|..]
  {
    SplitFirst(s, sep);
    SplitPiecesFree(s, sep);
    Split(s, sep)[0]
  }

  /** A string free of the one-character string `[c]` does not hold `c`. */
  lemma NotContainsChar(p: string, c: char)
    requires !Contains(p, [c])
    ensures c !in p
  {
    ContainsIff(p, [c]);
    assert forall i :: 0 <= i < |p| && p[i] == c ==> OccursAt(p, [c], i);
  }

  /** With a one-character separator, `FirstPiece` is the only prefix that
      is free of it and ends at a separator or at the end of the string. */
  lemma FirstPieceUnique(s: string, c: char, p: string)
    requires p <= s && c !in p
    requires p == s || s[|p|] == c
    ensures FirstPiece(s, [c]) == p
  {
    var q := FirstPiece(s, [c]);
    NotContainsChar(q, c);
  }

  /** Text free of `sep` splits into itself alone. */
  lemma {:induction false} SplitFree(b: string, sep: string)
    requires |sep| > 0
    requires !Contains(b, sep)
    ensures Split(b, sep) == [b]
    decreases |b|
  {
    if |b| > 0 {
      SplitFree(b[1..], sep);
      assert [b[0]] + b[1..] == b;
    }
  }

  /** When `sep` first occurs right after `a`, the first piece is `a` and
      the rest is the split of what follows the occurrence. */
  lemma {:induction false} SplitAtFirst(a: string, sep: string, b: string)
    requires |sep| > 0
    requires !Contains(a + sep[..|sep| - 1], sep)
    ensures Split(a + sep + b, sep) == [a] + Split(b, sep)
    decreases |a|
  {
    if |a| == 0 {
      var s := a + sep + b;
      assert s == sep + b;
      assert s[|sep|..] == b;
    } else {
      NoEarlierSep(a, sep, b);
      SplitAtFirst(a[1..], sep, b);
      SplitGlue(a, sep, b);
    }
  }

  /** The inductive step of `SplitAtFirst`: the first character of `a`
      rejoins the first piece. */
  lemma SplitGlue(a: string, sep: string, b: string)
    requires |sep| > 0 && |a| > 0
    requires !(sep <= a + sep + b)
    requires Split(a[1..] + sep + b, sep) == [a[1..]] + Split(b, sep)
    ensures Split(a + sep + b, sep) == [a] + Split(b, sep)
  {
    HeadOfConcat(a, sep, b);
    SplitCons(a[0], a[1..] + sep + b, sep, a[1..], Split(b, sep));
    assert [a[0]] + a[1..] == a;
  }

  /** Before the first occurrence of `sep` right after a non-empty `a`,
      `sep` does not start at the front, nor inside the rest of `a`. */
  lemma NoEarlierSep(a: string, sep: string, b: string)
    requires |sep| > 0 && |a| > 0
    requires !Contains(a + sep[..|sep| - 1], sep)
    ensures !(sep <= a + sep + b)
    ensures !Contains(a[1..] + sep[..|sep| - 1], sep)
  {
    var x := a + sep[..|sep| - 1];
    assert x[1..] == a[1..] + sep[..|sep| - 1];
    assert x == (a + sep + b)[..|x|] && |sep| <= |x|;
    assert sep <= a + sep + b ==> sep <= x;
  }

  /** The first character of `a` heads `a + m + b`. */
  lemma HeadOfConcat(a: string, m: string, b: string)
    requires |a| > 0
    ensures a + m + b == [a[0]] + (a[1..] + m + b)
  {
    assert a == [a[0]] + a[1..];
  }

  /** Where `sep` does not start, the first character joins the first piece
      of the rest. */
  lemma SplitCons(c: char, t: string, sep: string, first: string, more: seq<string>)
    requires |sep| > 0 && !(sep <= [c] + t)
    requires Split(t, sep) == [first] + more
    ensures Split([c] + t, sep) == [[c] + first] + more
  {
    assert ([c] + t)[1..] == t;
    assert ([first] + more)[1..] == more;
  }

  /** The last piece of `a + sep + b` is `b` when that occurrence of `sep`
      is the first one and `b` holds no other. */
  lemma LastPieceAfter(a: string, sep: string, b: string)
    requires |sep| > 0
    requires !Contains(a + sep[..|sep| - 1], sep)
    requires !Contains(b, sep)
    ensures Contains(a + sep + b, sep)
    ensures LastPiece(a + sep + b, sep) == b
  {
    SplitAtFirst(a, sep, b);
    SplitFree(b, sep);
    PrefixContains(sep + b, sep);
    ContainsInConcat(a, sep + b, "", sep);
    assert a + (sep + b) + "" == a + sep + b;
  }

  /** Python `s.split(sep)[-1]`. */
  function LastPiece(s: string, sep: string): (r: string)
    requires |sep| > 0
    ensures |r| <= |s| && r == s[|s| - |r|..] && !Contains(r, sep)
    ensures r == s || (|r| + |sep| <= |s| && s[|s| - |r| - |sep|..|s| - |r|] == sep)
  {
    SplitLast(s, sep);
    SplitPiecesFree(s, sep);
    var r := Split(s, sep);
    r[|r| - 1]
  }

  // ---------------------------------------------------------------------
  // Whitespace trimming
  // ---------------------------------------------------------------------

  /** Python's `str.isspace()` characters, which `str.strip()` removes. */
  predicate PyIsSpace(c: char)
  {
    || c == '\t' || c == '\n' || c == '\U{B}' || c == '\U{C}' || c == '\r'
    || ('\U{1C}' <= c <= '\U{1F}') || c == ' ' || c == '\U{85}' || c == '\U{A0}'
    || c == '\U{1680}' || ('\U{2000}' <= c <= '\U{200A}')
    || c == '\U{2028}' || c == '\U{2029}' || c == '\U{202F}' || c == '\U{205F}'
    || c == '\U{3000}'
  }

  /** The white space and line terminators JavaScript's `String.prototype.trim` removes. */
  predicate JsIsSpace(c: char)
  {
    || c == '\t' || c == '\n' || c == '\U{B}' || c == '\U{C}' || c == '\r'
    || c == ' ' || c == '\U{A0}' || c == '\U{FEFF}'
    || c == '\U{1680}' || ('\U{2000}' <= c <= '\U{200A}')
    || c == '\U{2028}' || c == '\U{2029}' || c == '\U{202F}' || c == '\U{205F}'
    || c == '\U{3000}'
  }

  /** Number of leading characters of `s` that satisfy `ws`. */
  function LeadingCount(s: string, ws: char -> bool): (n: nat)
    ensures n <= |s|
    ensures forall i :: 0 <= i < n ==> ws(s[i])
    ensures n < |s| ==> !ws(s[n])
  {
    if |s| > 0 && ws(s[0]) then
      var n := LeadingCount(s[1..], ws);
      assert forall i :: 1 <= i < n + 1 ==> s[i] == s[1..][i - 1];
      n + 1
    else 0
  }

  function TrimEnd(s: string, ws: char -> bool): (r: string)
    ensures r <= s
    ensures |r| > 0 ==> !ws(r[|r| - 1])
    ensures forall i :: |r| <= i < |s| ==> ws(s[i])
  {
    if |s| > 0 && ws(s[|s| - 1]) then TrimEnd(s[..|s| - 1], ws) else s
  }

  /** Removes leading and trailing characters satisfying `ws`: the result
      is the slice of `s` that starts after the leading run of such
      characters, it neither starts nor ends with one, and everything cut
      off after it satisfies `ws` too. */
  function Trim(s: string, ws: char -> bool): (r: string)
    ensures var a := LeadingCount(s, ws);
      && a + |r| <= |s| && r == s[a..a + |r|]
      && (forall i :: a + |r| <= i < |s| ==> ws(s[i]))
    ensures |r| > 0 ==> !ws(r[0]) && !ws(r[|r| - 1])
  {
    var a := LeadingCount(s, ws);
    var t := s[a..];
    var r := TrimEnd(t, ws);
    assert r == s[a..a + |r|];
    assert forall i :: a + |r| <= i < |s| ==> s[i] == t[i - a];
    r
  }

  /** Trimming adds no character. */
  lemma TrimAddsNothing(s: string, ws: char -> bool, c: char)
    requires c !in s
    ensures c !in Trim(s, ws)
  {
    var r := Trim(s, ws);
    var a := LeadingCount(s, ws);
    assert forall i :: 0 <= i < |r| ==> r[i] == s[a + i];
  }

  /** Stripping white space around text that neither starts nor ends
      with white space leaves just that text. */
  lemma StripAround(pre: string, d: string, post: string)
    requires forall i :: 0 <= i < |pre| ==> PyIsSpace(pre[i])
    requires forall i :: 0 <= i < |post| ==> PyIsSpace(post[i])
    requires |d| > 0 && !PyIsSpace(d[0]) && !PyIsSpace(d[|d| - 1])
    ensures PyStrip(pre + d + post) == d
  {
    var s := pre + d + post;
    var a := LeadingCount(s, PyIsSpace);
    var r := PyStrip(s);
    assert s[|pre|] == d[0];
    assert forall i :: 0 <= i < |pre| ==> s[i] == pre[i];
    assert a == |pre|;
    assert s[|pre| + |d| - 1] == d[|d| - 1];
    assert forall i :: 0 <= i < |post| ==> s[|pre| + |d| + i] == post[i];
    assert |r| == |d|;
    assert r == s[|pre|..|pre| + |d|];
  }

  /** Python `str.strip()` with no argument. */
  function PyStrip(s: string): string { Trim(s, PyIsSpace) }

  /** JavaScript `String.prototype.trim()`. */
  function JsTrim(s: string): string { Trim(s, JsIsSpace) }

  // ---------------------------------------------------------------------
  // Case mapping (ASCII letters; other characters are left as they are)
  // ---------------------------------------------------------------------

  predicate IsUpper(c: char) { 'A' <= c <= 'Z' }
  predicate IsLower(c: char) { 'a' <= c <= 'z' }
  predicate IsLetter(c: char) { IsUpper(c) || IsLower(c) }

  function UpperChar(c: char): (r: char)
    ensures IsLetter(c) ==> IsUpper(r)
    ensures !IsLetter(c) ==> r == c
  {
    if IsLower(c) then (c as int - 32) as char else c
  }

  function LowerChar(c: char): (r: char)
    ensures IsLetter(c) ==> IsLower(r)
    ensures !IsLetter(c) ==> r == c
  {
    if IsUpper(c) then (c as int + 32) as char else c
  }

  /** Python `str.lower()`, restricted to ASCII letters. */
  function Lower(s: string): (r: string)
    ensures |r| == |s|
    ensures forall i :: 0 <= i < |s| ==> r[i] == LowerChar(s[i])
  {
    if |s| == 0 then "" else [LowerChar(s[0])] + Lower(s[1..])
  }

  /** Python `str.upper()` / JavaScript `toUpperCase()`, restricted to ASCII letters. */
  function Upper(s: string): (r: string)
    ensures |r| == |s|
    ensures forall i :: 0 <= i < |s| ==> r[i] == UpperChar(s[i])
  {
    if |s| == 0 then "" else [UpperChar(s[0])] + Upper(s[1..])
  }

  /** The title-case form of the character at position `i` of `s`: a letter
      is upper-cased when the character before it is not a letter (or there
      is none) and lower-cased otherwise; other characters are kept. */
  function TitleCharAt(s: string, i: nat): char
    requires i < |s|
  {
    if !IsLetter(s[i]) then s[i]
    else if i == 0 || !IsLetter(s[i - 1]) then UpperChar(s[i])
    else LowerChar(s[i])
  }

  /** Title-casing keeps letters letters and everything else as it is,
      and capitalises exactly the letters that start a run of letters. */
  lemma TitleCharShape(s: string, i: nat)
    requires i < |s|
    ensures IsLetter(TitleCharAt(s, i)) <==> IsLetter(s[i])
    ensures !IsLetter(s[i]) ==> TitleCharAt(s, i) == s[i]
    ensures IsLetter(s[i]) ==> (IsUpper(TitleCharAt(s, i)) <==> i == 0 || !IsLetter(s[i - 1]))
  {
  }

  function TitleFrom(s: string, afterLetter: bool): (r: string)
    ensures |r| == |s|
    ensures |s| > 0 ==> r[0] == (if !IsLetter(s[0]) then s[0]
                               else if afterLetter then LowerChar(s[0]) else UpperChar(s[0]))
    ensures forall i :: 0 < i < |s| ==> r[i] == TitleCharAt(s, i)
  {
    if |s| == 0 then ""
    else
      var c := if !IsLetter(s[0]) then s[0]
               else if afterLetter then LowerChar(s[0]) else UpperChar(s[0]);
      var rest := TitleFrom(s[1..], IsLetter(s[0]));
      assert forall i :: 1 < i < |s| ==> TitleCharAt(s[1..], i - 1) == TitleCharAt(s, i);
      [c] + rest
  }

  /** Python `str.title()`, restricted to ASCII letters. */
  function Title(s: string): (r: string)
    ensures |r| == |s|
    ensures forall i :: 0 <= i < |s| ==> r[i] == TitleCharAt(s, i)
  {
    TitleFrom(s, false)
  }

  /** Python `s.replace(a, b)` for single characters. */
  function ReplaceChar(s: string, a: char, b: char): (r: string)
    ensures |r| == |s|
    ensures forall i :: 0 <= i < |s| ==> r[i] == (if s[i] == a then b else s[i])
  {
    if |s| == 0 then "" else [if s[0] == a then b else s[0]] + ReplaceChar(s[1..], a, b)
  }

  // ---------------------------------------------------------------------
  // Integers as decimal text
  // ---------------------------------------------------------------------

  predicate IsDigit(c: char) { '0' <= c <= '9' }

  function DigitChar(d: nat): char
    requires d < 10
  {
    ('0' as int + d) as char
  }

  function DigitValue(c: char): nat
    requires IsDigit(c)
  {
    c as int - '0' as int
  }

  /** Python `s.isdigit()` for ASCII digits: non-empty and all digits. */
  predicate IsDigits(s: string)
  {
    |s| > 0 && forall i :: 0 <= i < |s| ==> IsDigit(s[i])
  }

  /** Decimal digits of `n`, no leading zeros (Python `str(n)` for `n >= 0`). */
  function NatStr(n: nat): (r: string)
    ensures IsDigits(r)
    ensures |r| > 1 ==> r[0] != '0'
  {
    if n < 10 then [DigitChar(n)] else NatStr(n / 10) + [DigitChar(n % 10)]
  }

  /** Python `str(i)` for any integer. */
  function IntStr(i: int): string
  {
    if i < 0 then "-" + NatStr(-i) else NatStr(i)
  }

  /** Python `int(s)` for a string of ASCII digits. */
  function ParseNat(s: string): nat
    requires forall i :: 0 <= i < |s| ==> IsDigit(s[i])
  {
    if |s| == 0 then 0 else 10 * ParseNat(s[..|s| - 1]) + DigitValue(s[|s| - 1])
  }

  /** Powers of ten multiply by adding exponents. */
  lemma {:induction false} Pow10Add(a: nat, b: nat)
    ensures Pow10(a + b) == Pow10(a) * Pow10(b)
  {
    if a > 0 {
      Pow10Add(a - 1, b);
      assert Pow10(a + b) == 10 * Pow10(a - 1 + b);
    }
  }

  /** Parsing the decimal text of `n` gives back `n`. */
  lemma {:induction false} ParseNatStr(n: nat)
    ensures ParseNat(NatStr(n)) == n
  {
    if n >= 10 {
      ParseNatStr(n / 10);
      var s := NatStr(n);
      assert s[..|s| - 1] == NatStr(n / 10);
    }
  }

  /** Decimal text of `n` zero-padded on the left to at least `width` characters
      (`%02d`, `%04d`, `%06d`). */
  function Pad(n: nat, width: nat): (r: string)
    ensures |r| >= width
    ensures forall i :: 0 <= i < |r| ==> IsDigit(r[i])
    ensures ParseNat(r) == n
  {
    var d := NatStr(n);
    ParseNatStr(n);
    if |d| >= width then d
    else
      var z := seq(width - |d|, _ => '0');
      ParseNatLeadingZeros(z, d);
      z + d
  }

  lemma {:induction false} ParseNatLeadingZeros(z: string, d: string)
    requires forall i :: 0 <= i < |z| ==> z[i] == '0'
    requires forall i :: 0 <= i < |d| ==> IsDigit(d[i])
    ensures forall i :: 0 <= i < |z + d| ==> IsDigit((z + d)[i])
    ensures ParseNat(z + d) == ParseNat(d)
    decreases |d|
  {
    if |d| == 0 {
      assert z + d == z;
      ParseNatZeros(z);
    } else {
      assert (z + d)[..|z + d| - 1] == z + d[..|d| - 1];
      ParseNatLeadingZeros(z, d[..|d| - 1]);
    }
  }

  lemma {:induction false} ParseNatZeros(z: string)
    requires forall i :: 0 <= i < |z| ==> z[i] == '0'
    ensures ParseNat(z) == 0
  {
    if |z| > 0 {
      ParseNatZeros(z[..|z| - 1]);
    }
  }

  /** A value below 10^k is written in at most k digits. */
  lemma {:induction false} NatStrLength(n: nat, k: nat)
    requires n < Pow10(k)
    requires k >= 1
    ensures |NatStr(n)| <= k
  {
    if n >= 10 {
      NatStrLength(n / 10, k - 1);
    }
  }

  function Pow10(k: nat): (r: nat)
    ensures r >= 1
  {
    if k == 0 then 1 else 10 * Pow10(k - 1)
  }

  // ---------------------------------------------------------------------
  // Decimal literals (Python `float(text)` on ASCII text)
  // ---------------------------------------------------------------------

  /** Some character is an ASCII digit. */
  predicate HasDigit(s: string) { exists i :: 0 <= i < |s| && IsDigit(s[i]) }

  /** A digit in a slice is a digit of the whole text. */
  lemma HasDigitWithin(s: string, a: nat, b: nat)
    requires a <= b <= |s| && HasDigit(s[a..b])
    ensures HasDigit(s)
  {
    var i :| 0 <= i < b - a && IsDigit(s[a..b][i]);
    assert s[a..b][i] == s[a + i];
  }

  /** Trimming only removes characters; a digit left over was there. */
  lemma TrimKeepsDigit(s: string, ws: char -> bool)
    requires HasDigit(Trim(s, ws))
    ensures HasDigit(s)
  {
    var a := LeadingCount(s, ws);
    var t := Trim(s, ws);
    HasDigitWithin(s, a, a + |t|);
  }

  /** Only ASCII digits; the empty text included. */
  predicate AllDigits(s: string) { forall i :: 0 <= i < |s| ==> IsDigit(s[i]) }

  predicate IsPoint(c: char) { c == '.' }
  predicate IsExponentMark(c: char) { c == 'e' || c == 'E' }

  /** The index of the first character of `s` that satisfies `p`, or `|s|`. */
  function FirstWhere(s: string, p: char -> bool): (k: nat)
    ensures k <= |s|
    ensures forall i :: 0 <= i < k ==> !p(s[i])
    ensures k < |s| ==> p(s[k])
  {
    if |s| == 0 || p(s[0]) then 0
    else
      var k := FirstWhere(s[1..], p);
      assert forall i :: 1 <= i < k + 1 ==> s[i] == s[1..][i - 1];
      k + 1
  }

  /** Ten to an integer power, as a real. */
  function TenPow(e: int): (r: real)
    ensures r > 0.0
    ensures e >= 0 ==> r == Pow10(e) as real
    ensures e < 0 ==> r * (Pow10(-e) as real) == 1.0
  {
    if e >= 0 then Pow10(e) as real else 1.0 / (Pow10(-e) as real)
  }

  /** An unsigned mantissa `d`, `d.`, `d.d` or `.d`: all its digits read as
      one number, and how many of them follow the point. */
  function Mantissa(s: string): (r: Option<(nat, nat)>)
    ensures r.Some? <==> var k := FirstWhere(s, IsPoint);
      && AllDigits(s[..k]) && (k < |s| ==> AllDigits(s[k + 1..])) && k + (if k < |s| then |s| - k - 1 else 0) > 0
    ensures r.Some? ==> HasDigit(s)
  {
    var k := FirstWhere(s, IsPoint);
    var whole := s[..k];
    var frac := if k < |s| then s[k + 1..] else "";
    if AllDigits(whole) && AllDigits(frac) && |whole| + |frac| > 0 then
      assert AllDigits(whole + frac) by {
        assert forall i :: 0 <= i < |whole + frac| ==> (whole + frac)[i] == if i < |whole| then whole[i] else frac[i - |whole|];
      }
      assert IsDigit(s[0]) || IsDigit(s[k + 1]) by {
        if |whole| > 0 { assert whole[0] == s[0]; } else { assert frac[0] == s[k + 1]; }
      }
      Some((ParseNat(whole + frac), |frac|))
    else None
  }

  /** An optionally signed, non-empty run of digits: the exponent of a
      decimal literal. */
  function SignedDigits(s: string): (r: Option<int>)
    ensures r.Some? ==> HasDigit(s)
  {
    if |s| > 0 && (s[0] == '-' || s[0] == '+') then
      if IsDigits(s[1..]) then
        assert IsDigit(s[1..][0]);
        Some(if s[0] == '-' then -(ParseNat(s[1..]) as int) else ParseNat(s[1..]))
      else None
    else if IsDigits(s) then Some(ParseNat(s))
    else None
  }

  /** The value of an unsigned decimal literal `mantissa [(e|E) [sign] digits]`. */
  function UnsignedDecimal(s: string): (r: Option<real>)
    ensures r.Some? ==> r.value >= 0.0
    ensures r.Some? ==> HasDigit(s)
  {
    var k := FirstWhere(s, IsExponentMark);
    var m := Mantissa(s[..k]);
    var e := if k < |s| then SignedDigits(s[k + 1..]) else Some(0);
    if m.None? || e.None? then None
    else
      assert HasDigit(s[..k]);
      HasDigitWithin(s, 0, k);
      Some((m.value.0 as real) * TenPow(e.value - m.value.1))
  }

  /** The value of a decimal literal `[sign] mantissa [(e|E) [sign] digits]`,
      the form Python's `float` reads once surrounding white space is
      stripped; `None` for any other text. */
  function DecimalValue(s: string): (r: Option<real>)
    ensures r.Some? ==> HasDigit(s)
  {
    if |s| > 0 && (s[0] == '-' || s[0] == '+') then
      var v := UnsignedDecimal(s[1..]);
      if v.None? then None
      else
        assert s[1..|s|] == s[1..];
        HasDigitWithin(s, 1, |s|);
        Some(if s[0] == '-' then -v.value else v.value)
    else UnsignedDecimal(s)
  }

  /** Digits alone are a decimal literal worth the number they spell. */
  lemma DecimalOfNat(n: nat)
    ensures DecimalValue(NatStr(n)) == Some(n as real)
  {
    var s := NatStr(n);
    assert !(s[0] == '-' || s[0] == '+');
    var k := FirstWhere(s, IsExponentMark);
    assert k == |s|;
    assert s[..k] == s;
    var p := FirstWhere(s, IsPoint);
    assert p == |s|;
    assert s[..p] + "" == s;
    ParseNatStr(n);
  }

  /** A leading minus negates an unsigned decimal literal. */
  lemma DecimalOfNegative(s: string)
    requires |s| > 0 && s[0] != '-' && s[0] != '+'
    ensures DecimalValue("-" + s) == if DecimalValue(s).Some? then Some(-DecimalValue(s).value) else None
  {
    var t := "-" + s;
    assert t[0] == '-' && t[1..] == s;
    assert DecimalValue(s) == UnsignedDecimal(s);
  }

  /** Digits appended on the right shift the value left by their count. */
  lemma {:induction false} ParseNatConcat(a: string, b: string)
    requires AllDigits(a) && AllDigits(b)
    ensures AllDigits(a + b)
    ensures ParseNat(a + b) == ParseNat(a) * Pow10(|b|) + ParseNat(b)
  {
    AllDigitsConcat(a, b);
    if |b| == 0 {
      assert a + b == a;
    } else {
      var b' := b[..|b| - 1];
      var d := DigitValue(b[|b| - 1]);
      assert AllDigits(b');
      ParseNatConcat(a, b');
      assert (a + b)[..|a + b| - 1] == a + b';
      assert (a + b)[|a + b| - 1] == b[|b| - 1];
      ConcatStep(ParseNat(a), Pow10(|b'|), ParseNat(b'), d);
    }
  }

  lemma AllDigitsConcat(a: string, b: string)
    requires AllDigits(a) && AllDigits(b)
    ensures AllDigits(a + b)
  {
    assert forall i :: 0 <= i < |a + b| ==> (a + b)[i] == if i < |a| then a[i] else b[i - |a|];
  }

  lemma ConcatStep(pa: nat, q: nat, pb: nat, d: nat)
    ensures 10 * (pa * q + pb) + d == pa * (10 * q) + (10 * pb + d)
  {
  }

  /** Where the parts of `w.f` sit. */
  lemma FractionShape(w: string, f: string)
    ensures var s := w + "." + f;
      && |s| == |w| + 1 + |f| && s[..|w|] == w && s[|w|] == '.' && s[|w| + 1..] == f
      && (forall i :: 0 <= i < |w| ==> s[i] == w[i])
      && (forall i :: |w| < i < |s| ==> s[i] == f[i - |w| - 1])
  {
  }

  /** The first character satisfying `p` is at `k`. */
  lemma FirstWhereAt(s: string, p: char -> bool, k: nat)
    requires k < |s| && p(s[k]) && forall i :: 0 <= i < k ==> !p(s[i])
    ensures FirstWhere(s, p) == k
  {
  }

  /** Every mantissa `w.f` of ASCII digits, with a digit on at least one
      side, reads as the whole part shifted left past the fraction digits
      plus the fraction, with the count of fraction digits as the scale:
      `UnsignedDecimal` then divides by ten that many times. */
  lemma FractionMantissa(w: string, f: string)
    requires AllDigits(w) && AllDigits(f) && |w| + |f| > 0
    ensures AllDigits(w + f)
    ensures Mantissa(w + "." + f) == Some((ParseNat(w + f), |f|))
    ensures ParseNat(w + f) == ParseNat(w) * Pow10(|f|) + ParseNat(f)
  {
    var s := w + "." + f;
    FractionShape(w, f);
    AllDigitsConcat(w, f);
    FirstWhereAt(s, IsPoint, |w|);
    ParseNatConcat(w, f);
  }

  /** Python's `float` reads a fraction with digits on both sides of the
      point. */
  lemma DecimalFraction()
    ensures DecimalValue("2.50") == Some(2.5)
  {
    assert FirstWhere("2.50", IsExponentMark) == 4 && "2.50"[..4] == "2.50";
    assert FirstWhere("2.50", IsPoint) == 1;
    assert "2.50"[..1] == "2" && "2.50"[2..] == "50" && "2" + "50" == "250";
    assert "250"[..2] == "25" && "25"[..1] == "2" && "2"[..0] == "";
    assert Mantissa("2.50") == Some((250, 2));
    assert TenPow(-2) == 1.0 / 100.0;
  }

  /** Python's `float` reads a fraction with no digit after the point. */
  lemma DecimalNoFraction()
    ensures DecimalValue("7.") == Some(7.0)
  {
    assert FirstWhere("7.", IsExponentMark) == 2 && "7."[..2] == "7.";
    assert FirstWhere("7.", IsPoint) == 1;
    assert "7."[..1] == "7" && "7."[2..] == "" && "7" + "" == "7" && "7"[..0] == "";
    assert Mantissa("7.") == Some((7, 0));
  }

  /** Python's `float` reads a fraction with no digit before the point. */
  lemma DecimalNoWhole()
    ensures DecimalValue(".5") == Some(0.5)
  {
    assert FirstWhere(".5", IsExponentMark) == 2 && ".5"[..2] == ".5";
    assert FirstWhere(".5", IsPoint) == 0;
    assert ".5"[..0] == "" && ".5"[1..] == "5" && "" + "5" == "5" && "5"[..0] == "";
    assert Mantissa(".5") == Some((5, 1));
  }

  /** An exponent carries its own sign. */
  lemma DecimalNegativeExponent()
    ensures DecimalValue("25E-1") == Some(2.5)
  {
    assert FirstWhere("25E-1", IsExponentMark) == 2 && "25E-1"[..2] == "25" && "25E-1"[3..] == "-1";
    assert FirstWhere("25", IsPoint) == 2 && "25"[..2] == "25" && "25" + "" == "25";
    assert "25"[..1] == "2" && "2"[..0] == "";
    assert Mantissa("25") == Some((25, 0));
    assert "-1"[1..] == "1" && "1"[..0] == "";
    assert SignedDigits("-1") == Some(-1);
  }

  /** A literal may carry a sign before an exponent that carries none. */
  lemma DecimalSignedLiteral()
    ensures DecimalValue("+3e2") == Some(300.0)
  {
    assert "+3e2"[1..] == "3e2";
    assert FirstWhere("3e2", IsExponentMark) == 1 && "3e2"[..1] == "3" && "3e2"[2..] == "2";
    assert FirstWhere("3", IsPoint) == 1 && "3"[..1] == "3" && "3" + "" == "3";
    assert "3"[..0] == "" && "2"[..0] == "";
    assert Mantissa("3") == Some((3, 0));
    assert SignedDigits("2") == Some(2);
    assert TenPow(2) == 100.0;
  }

  /** Python's `float` refuses a lone point, an exponent without digits, a
      second sign and the empty text. */
  lemma DecimalRefused()
    ensures DecimalValue(".").None? && DecimalValue("1e").None?
    ensures DecimalValue("--1").None? && DecimalValue("").None?
  {
    assert FirstWhere(".", IsExponentMark) == 1 && "."[..1] == ".";
    assert FirstWhere(".", IsPoint) == 0 && "."[..0] == "" && "."[1..] == "";
    assert FirstWhere("1e", IsExponentMark) == 1 && "1e"[2..] == "";
    assert "--1"[1..] == "-1";
    assert FirstWhere("-1", IsExponentMark) == 2 && "-1"[..2] == "-1";
    assert FirstWhere("-1", IsPoint) == 2 && "-1"[..2] == "-1";
  }
}
