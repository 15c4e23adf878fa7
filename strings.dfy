/**
 * String primitives the services rely on, restricted to ASCII: the
 * whitespace class `\s`, the word class `\w`, `toLowerCase`, `trim`,
 * `split`, `join`, `substring(0, n)` and the decimal rendering of a
 * non-negative integer (`Number.prototype.toString`, Python `str`).
 */
module Strings {

  /** `\s` restricted to ASCII: space, tab, line feed, vertical tab, form feed, carriage return. */
  predicate IsSpace(c: char) {
    c == ' ' || (9 <= c as int <= 13)
  }

  predicate IsDigit(c: char) {
    '0' <= c <= '9'
  }

  predicate IsLowerAlpha(c: char) {
    'a' <= c <= 'z'
  }

  predicate IsUpperAlpha(c: char) {
    'A' <= c <= 'Z'
  }

  /** `[a-zA-Z0-9]` */
  predicate IsAlnum(c: char) {
    IsLowerAlpha(c) || IsUpperAlpha(c) || IsDigit(c)
  }

  /** `\w` restricted to ASCII: `[A-Za-z0-9_]`. */
  predicate IsWordChar(c: char) {
    IsAlnum(c) || c == '_'
  }

  predicate NoSpace(s: string) {
    forall i :: 0 <= i < |s| ==> !IsSpace(s[i])
  }

  /** Every character of `p` occurs in `s`. */
  predicate CharsFrom(p: string, s: string) {
    forall j :: 0 <= j < |p| ==> p[j] in s
  }

  /** `toLowerCase` on one ASCII character. */
  function LowerChar(c: char): (r: char)
    ensures IsUpperAlpha(c) ==> IsLowerAlpha(r) && r as int == c as int + 32
    ensures !IsUpperAlpha(c) ==> r == c
  {
    if IsUpperAlpha(c) then (c as int + 32) as char else c
  }

  /** `toLowerCase` restricted to ASCII. */
  function Lower(s: string): (r: string)
    ensures |r| == |s|
    ensures forall i :: 0 <= i < |s| ==> r[i] == LowerChar(s[i])
  {
    seq(|s|, i requires 0 <= i < |s| => LowerChar(s[i]))
  }

  lemma LowerKeepsSpaces(s: string)
    ensures forall i :: 0 <= i < |s| ==> (IsSpace(Lower(s)[i]) <==> IsSpace(s[i]))
  {
  }

  /** `s.substring(0, n)`: the first `n` characters, or all of them when there are fewer. */
  function Prefix(s: string, n: nat): (r: string)
    ensures |r| <= n && |r| <= |s|
    ensures |s| <= n ==> r == s
    ensures |s| > n ==> |r| == n
    ensures r <= s
  {
    if |s| <= n then s else s[..n]
  }

  predicate StartsWith(s: string, p: string) {
    |p| <= |s| && s[..|p|] == p
  }

  /** `s.includes(sub)` */
  predicate Contains(s: string, sub: string) {
    exists i :: 0 <= i <= |s| - |sub| && sub <= s[i..]
  }

  /** Drops the leading whitespace (`trimStart`). */
  function TrimStart(s: string): (r: string)
    ensures |r| <= |s| && r == s[|s| - |r|..]
    ensures r == [] || !IsSpace(r[0])
    ensures forall i :: 0 <= i < |s| - |r| ==> IsSpace(s[i])
  {
    if s != [] && IsSpace(s[0]) then
      var r := TrimStart(s[1..]);
      assert s[1..][|s| - 1 - |r|..] == s[|s| - |r|..];
      assert forall i :: 1 <= i < |s| - |r| ==> s[i] == s[1..][i - 1];
      r
    else s
  }

  /** Drops the trailing whitespace (`trimEnd`). */
  function TrimEnd(s: string): (r: string)
    ensures |r| <= |s| && r == s[..|r|]
    ensures r == [] || !IsSpace(r[|r| - 1])
    ensures forall i :: |r| <= i < |s| ==> IsSpace(s[i])
  {
    if s != [] && IsSpace(s[|s| - 1]) then TrimEnd(s[..|s| - 1]) else s
  }

  /** `r` is the piece of `s` that starts at `a`, and only whitespace lies
      outside it. */
  predicate TrimmedAt(s: string, r: string, a: int) {
    0 <= a && a + |r| <= |s| && r == s[a..a + |r|] &&
    (forall i :: 0 <= i < a ==> IsSpace(s[i])) &&
    (forall i :: a + |r| <= i < |s| ==> IsSpace(s[i]))
  }

  /** `trim`: no leading and no trailing whitespace, the middle untouched. */
  function Trim(s: string): (r: string)
    ensures |r| <= |s|
    ensures r == [] || (!IsSpace(r[0]) && !IsSpace(r[|r| - 1]))
    ensures NoSpace(s) ==> r == s
    ensures CharsFrom(r, s)
    ensures exists a :: TrimmedAt(s, r, a)
  {
    var t := TrimStart(s);
    var r := TrimEnd(t);
    MiddleChars(s, t, r);
    SliceOfSuffix(s, t, r);
    assert TrimmedAt(s, r, |s| - |t|);
    r
  }

  lemma SliceOfSuffix(s: string, t: string, r: string)
    requires |t| <= |s| && t == s[|s| - |t|..] && |r| <= |t| && r == t[..|r|]
    ensures r == s[|s| - |t|..|s| - |t| + |r|]
  {
  }

  /** Where the trimmed text starts in `s`. */
  lemma TrimStartsAt(s: string) returns (a: nat)
    ensures TrimmedAt(s, Trim(s), a)
  {
    var t := TrimStart(s);
    var r := TrimEnd(t);
    SliceOfSuffix(s, t, r);
    a := |s| - |t|;
    assert TrimmedAt(s, r, a);
  }

  /** A string with no whitespace at either end is its own trim. */
  lemma TrimTrimmed(s: string)
    requires s == [] || (!IsSpace(s[0]) && !IsSpace(s[|s| - 1]))
    ensures Trim(s) == s
  {
    assert TrimStart(s) == s;
    assert TrimEnd(s) == s;
  }

  /** Every whitespace character is a space, and no two are adjacent. */
  predicate SingleSpaced(s: string) {
    forall i :: 0 <= i < |s| && IsSpace(s[i]) ==> s[i] == ' ' && (i + 1 < |s| ==> !IsSpace(s[i + 1]))
  }

  /** `s.replace(/\s+/g, ' ')`: every maximal run of whitespace becomes one space. */
  function Collapse(s: string): (r: string)
    ensures |r| <= |s|
    ensures r == [] <==> s == []
    ensures r != [] ==> (IsSpace(r[0]) <==> IsSpace(s[0]))
    ensures SingleSpaced(r)
    decreases |s|
  {
    if s == [] then []
    else if IsSpace(s[0]) then
      var t := TrimStart(s);
      assert |t| < |s|;
      [' '] + Collapse(t)
    else [s[0]] + Collapse(s[1..])
  }

  /** Text without a whitespace run longer than one space is left alone. */
  lemma {:induction false} CollapseSingleSpaced(s: string)
    requires SingleSpaced(s)
    ensures Collapse(s) == s
    decreases |s|
  {
    if s != [] {
      SingleSpacedSlice(s, 1, |s|);
      CollapseSingleSpaced(s[1..]);
      CollapseStep(s);
      assert s == [s[0]] + s[1..];
    }
  }

  /** On single-spaced text, `Collapse` moves one character at a time. */
  lemma CollapseStep(s: string)
    requires s != [] && SingleSpaced(s)
    ensures Collapse(s) == [s[0]] + Collapse(s[1..])
  {
    if IsSpace(s[0]) {
      var t := s[1..];
      assert t == [] || !IsSpace(t[0]) by {
        if t != [] {
          assert t[0] == s[1];
        }
      }
      TrimStartNoLead(t);
      assert TrimStart(s) == TrimStart(t);
    }
  }

  lemma TrimStartNoLead(t: string)
    requires t == [] || !IsSpace(t[0])
    ensures TrimStart(t) == t
  {
  }

  /** A piece of single-spaced text is single-spaced. */
  lemma SingleSpacedSlice(s: string, a: nat, b: nat)
    requires SingleSpaced(s) && a <= b <= |s|
    ensures SingleSpaced(s[a..b])
  {
    var p := s[a..b];
    forall i | 0 <= i < |p| && IsSpace(p[i]) ensures p[i] == ' ' && (i + 1 < |p| ==> !IsSpace(p[i + 1])) {
      assert p[i] == s[a + i];
      if i + 1 < |p| {
        assert p[i + 1] == s[a + i + 1];
      }
    }
  }

  /** Trimming keeps text single-spaced. */
  lemma TrimSingleSpaced(s: string)
    requires SingleSpaced(s)
    ensures SingleSpaced(Trim(s))
  {
    var r := Trim(s);
    var a := TrimStartsAt(s);
    SingleSpacedSlice(s, a, a + |r|);
  }

  /** A prefix of a suffix of `s` is made of characters of `s`. */
  lemma MiddleChars(s: string, t: string, r: string)
    requires |t| <= |s| && t == s[|s| - |t|..] && |r| <= |t| && r == t[..|r|]
    ensures CharsFrom(r, s)
  {
    forall j | 0 <= j < |r| ensures r[j] in s {
      assert r[j] == t[j] == s[|s| - |t| + j];
    }
  }

  lemma TrimOfNonSpaceStart(s: string)
    requires s != [] && !IsSpace(s[0])
    ensures Trim(s) != [] && Trim(s)[0] == s[0]
  {
    assert TrimStart(s) == s;
  }

  /** `split(/\s+/)`: the pieces between maximal runs of whitespace; a leading
      or trailing run yields an empty first or last piece, and "" yields [""]. */
  function SplitWs(s: string): (r: seq<string>)
    ensures |r| >= 1
    ensures forall i :: 0 <= i < |r| ==> NoSpace(r[i]) && CharsFrom(r[i], s)
    decreases |s|
  {
    if s == [] then [""]
    else if IsSpace(s[0]) then
      var t := TrimStart(s);
      assert forall c :: c in t ==> c in s;
      [""] + SplitWs(t)
    else
      var rest := SplitWs(s[1..]);
      assert forall c :: c in s[1..] ==> c in s;
      [[s[0]] + rest[0]] + rest[1..]
  }

  /** The pieces of `split(/\s+/)` joined by single spaces are the text with
      every whitespace run replaced by one space. */
  lemma {:induction false} JoinSplitWs(s: string)
    ensures Join(SplitWs(s), " ") == Collapse(s)
    decreases |s|
  {
    if s != [] {
      if IsSpace(s[0]) {
        JoinSplitWs(TrimStart(s));
        JoinSplitWsSpace(s);
      } else {
        JoinSplitWs(s[1..]);
        JoinSplitWsWord(s);
      }
    }
  }

  lemma JoinSplitWsSpace(s: string)
    requires s != [] && IsSpace(s[0])
    requires Join(SplitWs(TrimStart(s)), " ") == Collapse(TrimStart(s))
    ensures Join(SplitWs(s), " ") == Collapse(s)
  {
    var t := TrimStart(s);
    var rest := SplitWs(t);
    assert SplitWs(s) == [""] + rest;
    JoinCons("", rest, " ");
    assert Collapse(s) == [' '] + Collapse(t);
  }

  /** Joining a piece in front of others puts one separator between. */
  lemma JoinCons(head: string, rest: seq<string>, sep: string)
    ensures Join([head] + rest, sep) == if rest == [] then head else head + sep + Join(rest, sep)
  {
    var p := [head] + rest;
    assert p[0] == head && p[1..] == rest;
  }

  lemma JoinSplitWsWord(s: string)
    requires s != [] && !IsSpace(s[0])
    requires Join(SplitWs(s[1..]), " ") == Collapse(s[1..])
    ensures Join(SplitWs(s), " ") == Collapse(s)
  {
    var rest := SplitWs(s[1..]);
    assert SplitWs(s) == [[s[0]] + rest[0]] + rest[1..];
    JoinHead(s[0], rest);
  }

  lemma ConcatAssoc<T>(a: seq<T>, b: seq<T>, c: seq<T>, d: seq<T>)
    ensures a + b + c + d == a + (b + c + d)
  {
  }

  /** Putting a character in front of the first piece puts it in front of the join. */
  lemma JoinHead(c: char, rest: seq<string>)
    requires |rest| >= 1
    ensures Join([[c] + rest[0]] + rest[1..], " ") == [c] + Join(rest, " ")
  {
    var h := [c] + rest[0];
    var p := [h] + rest[1..];
    if |rest| == 1 {
      assert p == [h];
    } else {
      assert p[0] == h && p[1..] == rest[1..];
      ConcatAssoc([c], rest[0], " ", Join(rest[1..], " "));
    }
  }

  /** `pieces.map(p => p.trim())` */
  function TrimAll(pieces: seq<string>): (r: seq<string>)
    ensures |r| == |pieces|
    ensures forall i :: 0 <= i < |r| ==> r[i] == Trim(pieces[i])
  {
    seq(|pieces|, i requires 0 <= i < |pieces| => Trim(pieces[i]))
  }

  /** `split(c)` for a one-character separator: "" yields [""]. */
  function SplitOn(s: string, c: char): (r: seq<string>)
    ensures |r| >= 1
    ensures forall i :: 0 <= i < |r| ==> c !in r[i]
  {
    if s == [] then [""]
    else if s[0] == c then [""] + SplitOn(s[1..], c)
    else
      var rest := SplitOn(s[1..], c);
      [[s[0]] + rest[0]] + rest[1..]
  }

  /** `pieces.join(sep)` */
  function Join(pieces: seq<string>, sep: string): string {
    if |pieces| == 0 then ""
    else if |pieces| == 1 then pieces[0]
    else pieces[0] + sep + Join(pieces[1..], sep)
  }

  /** Joining the pieces of `split(c)` with `c` gives back the input. */
  lemma {:induction false} JoinSplitOn(s: string, c: char)
    ensures Join(SplitOn(s, c), [c]) == s
  {
    if s == [] {
    } else if s[0] == c {
      JoinSplitOn(s[1..], c);
      assert SplitOn(s, c) == [""] + SplitOn(s[1..], c);
      assert s == [c] + s[1..];
    } else {
      JoinSplitOn(s[1..], c);
      var rest := SplitOn(s[1..], c);
      if |rest| == 1 {
        assert s == [s[0]] + s[1..];
      } else {
        assert Join(rest, [c]) == rest[0] + [c] + Join(rest[1..], [c]);
        assert s == [s[0]] + s[1..];
      }
    }
  }

  /** Splitting on `c` a join of pieces that hold no `c` gives back the pieces. */
  lemma {:induction false} SplitOnJoin(pieces: seq<string>, c: char)
    requires |pieces| >= 1
    requires forall i :: 0 <= i < |pieces| ==> c !in pieces[i]
    ensures SplitOn(Join(pieces, [c]), c) == pieces
    decreases |pieces|, |pieces[0]|
  {
    var p := pieces[0];
    if p == [] {
      if |pieces| == 1 {
      } else {
        SplitOnJoin(pieces[1..], c);
        var j := Join(pieces, [c]);
        assert j == [c] + Join(pieces[1..], [c]);
        assert j[1..] == Join(pieces[1..], [c]);
        assert pieces == [""] + pieces[1..];
      }
    } else {
      var shorter := [p[1..]] + pieces[1..];
      assert forall i :: 0 <= i < |shorter| ==> c !in shorter[i] by {
        forall i | 0 <= i < |shorter| ensures c !in shorter[i] {
          if i == 0 {
            assert forall k :: 0 <= k < |p[1..]| ==> p[1..][k] == p[k + 1];
          } else {
            assert shorter[i] == pieces[i];
          }
        }
      }
      SplitOnJoin(shorter, c);
      var j := Join(pieces, [c]);
      if |pieces| == 1 {
        assert j == p && Join(shorter, [c]) == p[1..];
      } else {
        assert j == p + [c] + Join(pieces[1..], [c]);
        assert Join(shorter, [c]) == p[1..] + [c] + Join(pieces[1..], [c]);
      }
      assert j[0] == p[0] && j[1..] == Join(shorter, [c]);
      assert p == [p[0]] + p[1..];
      assert pieces == [[p[0]] + shorter[0]] + shorter[1..];
    }
  }

  /** The decimal digit of `d`. */
  function DigitChar(d: nat): (c: char)
    requires d < 10
    ensures IsDigit(c) && c as int - '0' as int == d
  {
    ('0' as int + d) as char
  }

  /** `n.toString()` for a non-negative integer: decimal, no leading zeros. */
  function NatToString(n: nat): (r: string)
    ensures |r| >= 1
    ensures forall i :: 0 <= i < |r| ==> IsDigit(r[i])
    ensures |r| > 1 ==> r[0] != '0'
  {
    if n < 10 then [DigitChar(n)] else NatToString(n / 10) + [DigitChar(n % 10)]
  }

  /** Every character of `s` is a decimal digit. */
  predicate AllDigits(s: string) {
    forall i :: 0 <= i < |s| ==> IsDigit(s[i])
  }

  /** Reads a string of decimal digits back as a number. */
  function ParseDecimal(s: string): nat
    requires forall i :: 0 <= i < |s| ==> IsDigit(s[i])
  {
    if s == [] then 0
    else
      assert IsDigit(s[|s| - 1]);
      ParseDecimal(s[..|s| - 1]) * 10 + (s[|s| - 1] as int - '0' as int)
  }

  lemma {:induction false} ParseNatToString(n: nat)
    ensures ParseDecimal(NatToString(n)) == n
  {
    if n >= 10 {
      ParseNatToString(n / 10);
      var r := NatToString(n);
      assert r[..|r| - 1] == NatToString(n / 10);
    }
  }

  /** Distinct numbers render as distinct strings. */
  lemma NatToStringInjective(m: nat, n: nat)
    ensures NatToString(m) == NatToString(n) <==> m == n
  {
    if NatToString(m) == NatToString(n) {
      ParseNatToString(m);
      ParseNatToString(n);
    }
  }
}
