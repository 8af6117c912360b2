/**
 * The JavaScript string operations the modelled code uses: startsWith,
 * endsWith, includes, split and join with a literal separator, replace-all
 * of a literal, trim, toLowerCase and parseInt(_, 10).
 */
module JsStrings {
  import opened JsNumbers

  /** WhiteSpace and LineTerminator code points, the set `trim` and `parseInt` skip. */
  predicate IsWhitespace(c: char) {
    c == '\t' || c == '\n' || c == '\U{000B}' || c == '\U{000C}' || c == '\r' || c == ' '
    || c == '\U{00A0}' || c == '\U{1680}' || ('\U{2000}' <= c <= '\U{200A}')
    || c == '\U{2028}' || c == '\U{2029}' || c == '\U{202F}' || c == '\U{205F}'
    || c == '\U{3000}' || c == '\U{FEFF}'
  }

  predicate StartsWith(s: string, prefix: string) {
    |prefix| <= |s| && s[..|prefix|] == prefix
  }

  predicate EndsWith(s: string, suffix: string) {
    |suffix| <= |s| && s[|s| - |suffix|..] == suffix
  }

  /** `s.includes(sub)`: some position of `s` starts an occurrence of `sub`. */
  predicate Includes(s: string, sub: string)
    decreases |s|
  {
    StartsWith(s, sub) || (|s| > 0 && Includes(s[1..], sub))
  }

  function LowerChar(c: char): char {
    if 'A' <= c <= 'Z' then (c as int + 32) as char else c
  }

  /** `s.toLowerCase()`, restricted to the ASCII letters. */
  function ToLower(s: string): (r: string)
    ensures |r| == |s|
    ensures forall i :: 0 <= i < |s| ==> r[i] == LowerChar(s[i])
  {
    if s == [] then [] else [LowerChar(s[0])] + ToLower(s[1..])
  }

  // ---------------------------------------------------------------------------
  // split / join

  /**
   * `s.split(sep)` for a non-empty literal separator: the pieces between the
   * leftmost non-overlapping occurrences of `sep`, scanning left to right.
   */
  function Split(s: string, sep: string): (parts: seq<string>)
    requires sep != []
    ensures |parts| >= 1
    decreases |s|
  {
    if |s| < |sep| then [s]
    else if s[..|sep|] == sep then [[]] + Split(s[|sep|..], sep)
    else
      var rest := Split(s[1..], sep);
      [[s[0]] + rest[0]] + rest[1..]
  }

  /** `parts.join(sep)` */
  function Join(parts: seq<string>, sep: string): string
  {
    if |parts| == 0 then []
    else if |parts| == 1 then parts[0]
    else parts[0] + sep + Join(parts[1..], sep)
  }

  /** `s.replace(/from/g, to)` for a literal pattern: split at every match, join with the replacement. */
  function ReplaceAll(s: string, from: string, to: string): string
    requires from != []
  {
    Join(Split(s, from), to)
  }

  /** Joining the pieces back with the separator gives the original string. */
  lemma {:induction false} JoinSplit(s: string, sep: string)
    requires sep != []
    ensures Join(Split(s, sep), sep) == s
    decreases |s|
  {
    if |s| < |sep| {
    } else if s[..|sep|] == sep {
      var rest := Split(s[|sep|..], sep);
      assert Split(s, sep) == [[]] + rest;
      JoinSplit(s[|sep|..], sep);
      JoinCons([], rest, sep);
      assert s == sep + s[|sep|..];
    } else {
      var rest := Split(s[1..], sep);
      assert Split(s, sep) == [[s[0]] + rest[0]] + rest[1..];
      JoinSplit(s[1..], sep);
      JoinSplitStep(s[0], rest, sep);
      assert s == [s[0]] + s[1..];
    }
  }

  /** Prepending a character to the first piece prepends it to the joined string. */
  lemma JoinSplitStep(c: char, rest: seq<string>, sep: string)
    requires |rest| >= 1
    ensures Join([[c] + rest[0]] + rest[1..], sep) == [c] + Join(rest, sep)
  {
    if |rest| > 1 {
      JoinCons([c] + rest[0], rest[1..], sep);
      JoinCons(rest[0], rest[1..], sep);
      assert [rest[0]] + rest[1..] == rest;
    }
  }

  /** A string shorter than `sub` does not include it. */
  lemma {:induction false} ShortExcludes(s: string, sub: string)
    requires |s| < |sub|
    ensures !Includes(s, sub)
    decreases |s|
  {
    if |s| > 0 {
      ShortExcludes(s[1..], sub);
    }
  }

  /** The first piece of a split is a prefix of the string. */
  lemma {:induction false} SplitFirstPrefix(s: string, sep: string)
    requires sep != []
    ensures Split(s, sep)[0] <= s
    decreases |s|
  {
    if |s| < |sep| {
    } else if s[..|sep|] == sep {
      assert Split(s, sep) == [[]] + Split(s[|sep|..], sep);
    } else {
      var rest := Split(s[1..], sep);
      assert Split(s, sep) == [[s[0]] + rest[0]] + rest[1..];
      SplitFirstPrefix(s[1..], sep);
      assert [s[0]] + rest[0] == s[..1 + |rest[0]|];
    }
  }

  /** No piece of a split contains the separator: the string is cut at every occurrence. */
  lemma {:induction false} SplitPiecesAvoid(s: string, sep: string)
    requires sep != []
    ensures forall p :: p in Split(s, sep) ==> !Includes(p, sep)
    decreases |s|
  {
    if |s| < |sep| {
      ShortExcludes(s, sep);
    } else if s[..|sep|] == sep {
      var rest := Split(s[|sep|..], sep);
      assert Split(s, sep) == [[]] + rest;
      SplitPiecesAvoid(s[|sep|..], sep);
      ShortExcludes([], sep);
    } else {
      var rest := Split(s[1..], sep);
      var first := [s[0]] + rest[0];
      assert Split(s, sep) == [first] + rest[1..];
      SplitPiecesAvoid(s[1..], sep);
      SplitFirstPrefix(s[1..], sep);
      assert rest[0] in rest;
      assert first == s[..|first|];
      assert !StartsWith(first, sep);
      assert first[1..] == rest[0];
      forall p | p in rest[1..] ensures !Includes(p, sep) {
        assert p in rest;
      }
    }
  }

  /**
   * The cuts are leftmost: no occurrence of the separator starts inside a
   * piece, not even one that would run past its end into the separator that
   * follows. So for a separator that can overlap itself (`"\n\n"` in
   * `"a\n\n\nb"`), the cut is made at the first occurrence.
   */
  lemma {:induction false} SplitLeftmost(s: string, sep: string)
    requires sep != []
    ensures LeftmostCuts(Split(s, sep), sep)
    decreases |s|
  {
    var parts := Split(s, sep);
    var k := |sep| - 1;
    if |s| < |sep| {
    } else if s[..|sep|] == sep {
      var rest := Split(s[|sep|..], sep);
      assert parts == [[]] + rest;
      SplitLeftmost(s[|sep|..], sep);
      assert [] + sep[..k] == sep[..k];
      ShortExcludes(sep[..k], sep);
      LeftmostCutsCons([], rest, sep);
    } else {
      var rest := Split(s[1..], sep);
      assert parts == [[s[0]] + rest[0]] + rest[1..];
      SplitLeftmost(s[1..], sep);
      if |rest| > 1 {
        var tail := Join(rest[1..], sep);
        JoinSplit(s[1..], sep);
        assert s == [s[0]] + rest[0] + sep + tail;
        FirstCutLeftmost(s[0], rest[0], sep, tail);
      }
      LeftmostCutsCons([s[0]] + rest[0], rest[1..], sep);
    }
  }

  /** No piece but the last, followed by all but the last character of the separator, includes the separator. */
  predicate LeftmostCuts(parts: seq<string>, sep: string)
    requires sep != []
    decreases |parts|
  {
    |parts| <= 1 || (!Includes(parts[0] + sep[..|sep| - 1], sep) && LeftmostCuts(parts[1..], sep))
  }

  lemma LeftmostCutsCons(p: string, rest: seq<string>, sep: string)
    requires sep != []
    requires LeftmostCuts(rest, sep)
    requires |rest| > 0 ==> !Includes(p + sep[..|sep| - 1], sep)
    ensures LeftmostCuts([p] + rest, sep)
  {
    assert ([p] + rest)[1..] == rest;
  }

  /** `LeftmostCuts` piece by piece. */
  lemma {:induction false} LeftmostCutsAt(parts: seq<string>, sep: string, i: nat)
    requires sep != []
    requires LeftmostCuts(parts, sep)
    requires i < |parts| - 1
    ensures !Includes(parts[i] + sep[..|sep| - 1], sep)
    decreases i
  {
    if i > 0 {
      LeftmostCutsAt(parts[1..], sep, i - 1);
      assert parts[1..][i - 1] == parts[i];
    }
  }

  /** The step of `SplitLeftmost` for a first piece that does not start at a cut. */
  lemma FirstCutLeftmost(c: char, p: string, sep: string, tail: string)
    requires sep != []
    requires ([c] + p + sep + tail)[..|sep|] != sep
    requires !Includes(p + sep[..|sep| - 1], sep)
    ensures !Includes([c] + p + sep[..|sep| - 1], sep)
  {
    var x := [c] + p + sep[..|sep| - 1];
    FirstCutShape(c, p, sep, tail);
    assert Includes(x, sep) == (StartsWith(x, sep) || Includes(x[1..], sep));
  }

  /** The first piece with the separator's head is a prefix of the string, so it does not start with the separator. */
  lemma FirstCutShape(c: char, p: string, sep: string, tail: string)
    requires sep != []
    requires ([c] + p + sep + tail)[..|sep|] != sep
    ensures !StartsWith([c] + p + sep[..|sep| - 1], sep)
    ensures ([c] + p + sep[..|sep| - 1])[1..] == p + sep[..|sep| - 1]
  {
    var k := |sep| - 1;
    var x := [c] + p + sep[..k];
    var s := [c] + p + sep + tail;
    assert sep == sep[..k] + [sep[k]];
    assert s == x + ([sep[k]] + tail);
    assert x[..|sep|] == s[..|sep|];
  }

  /** A string that includes no one-character string `[c]` does not contain `c`. */
  lemma {:induction false} IncludesChar(s: string, c: char)
    requires !Includes(s, [c])
    ensures c !in s
    decreases |s|
  {
    if |s| > 0 {
      assert s[..1] != [c];
      IncludesChar(s[1..], c);
      assert s == [s[0]] + s[1..];
    }
  }

  /** No piece of a split at a one-character separator contains that character. */
  lemma SplitPiecesAvoidChar(s: string, c: char)
    ensures forall p :: p in Split(s, [c]) ==> c !in p
  {
    SplitPiecesAvoid(s, [c]);
    forall p | p in Split(s, [c]) ensures c !in p {
      IncludesChar(p, c);
    }
  }

  /** A string in which the separator's first character never occurs is a single piece. */
  lemma {:induction false} SplitWithoutSeparator(s: string, sep: string)
    requires sep != [] && sep[0] !in s
    ensures Split(s, sep) == [s]
    decreases |s|
  {
    if |s| < |sep| {
    } else {
      assert s[0] in s;
      assert s[..|sep|][0] != sep[0];
      SplitWithoutSeparator(s[1..], sep);
      assert [s[0]] + s[1..] == s;
    }
  }

  /**
   * Splitting `a + sep + b`, where the separator's first character does not occur
   * in `a`, yields `a` followed by the pieces of `b`.
   */
  lemma {:induction false} SplitAfterFirst(a: string, sep: string, b: string)
    requires sep != [] && sep[0] !in a
    ensures Split(a + sep + b, sep) == [a] + Split(b, sep)
    decreases |a|
  {
    var s := a + sep + b;
    if a == [] {
      assert s[..|sep|] == sep && s[|sep|..] == b;
    } else {
      assert a[0] in a;
      assert s[..|sep|][0] == a[0] != sep[0];
      assert s[1..] == a[1..] + sep + b;
      SplitAfterFirst(a[1..], sep, b);
      assert [a[0]] + a[1..] == a;
    }
  }

  /** Joining a first piece in front of at least one more puts the separator between them. */
  lemma JoinCons(p: string, parts: seq<string>, sep: string)
    requires |parts| >= 1
    ensures Join([p] + parts, sep) == p + sep + Join(parts, sep)
  {
    assert ([p] + parts)[1..] == parts;
  }

  /** Where `from` starts the string, replace-all emits `to` and carries on after the match. */
  lemma ReplaceAllAtMatch(s: string, from: string, to: string)
    requires from != [] && StartsWith(s, from)
    ensures ReplaceAll(s, from, to) == to + ReplaceAll(s[|from|..], from, to)
  {
    JoinCons([], Split(s[|from|..], from), to);
  }

  /** Where `from` does not start the string, replace-all keeps the first character. */
  lemma ReplaceAllElsewhere(s: string, from: string, to: string)
    requires from != [] && |s| > 0 && !StartsWith(s, from)
    ensures ReplaceAll(s, from, to) == [s[0]] + ReplaceAll(s[1..], from, to)
  {
    var rest := Split(s[1..], from);
    if |s| < |from| {
      assert Split(s, from) == [s];
      assert rest == [s[1..]];
      assert [s[0]] + s[1..] == s;
    } else {
      var parts := [[s[0]] + rest[0]] + rest[1..];
      assert Split(s, from) == parts;
      if |rest| > 1 {
        assert parts[1..] == rest[1..];
        assert Join(parts, to) == parts[0] + to + Join(rest[1..], to);
        assert Join(rest, to) == rest[0] + to + Join(rest[1..], to);
      }
    }
  }

  /** Joining pieces free of `c` with a separator free of `c` gives a string free of `c`. */
  lemma {:induction false} JoinAvoids(parts: seq<string>, sep: string, c: char)
    requires forall p :: p in parts ==> c !in p
    requires c !in sep
    ensures c !in Join(parts, sep)
    decreases |parts|
  {
    if |parts| > 1 {
      assert parts[0] in parts;
      forall p | p in parts[1..] ensures c !in p {
        assert p in parts;
      }
      JoinAvoids(parts[1..], sep, c);
    } else if |parts| == 1 {
      assert parts[0] in parts;
    }
  }

  // ---------------------------------------------------------------------------
  // trim

  function TrimStart(s: string): (r: string)
    ensures |r| <= |s| && r == s[|s| - |r|..]
    ensures r == [] || !IsWhitespace(r[0])
    ensures forall i :: 0 <= i < |s| - |r| ==> IsWhitespace(s[i])
  {
    if |s| > 0 && IsWhitespace(s[0]) then
      var r := TrimStart(s[1..]);
      assert s[1..][|s| - 1 - |r|..] == s[|s| - |r|..];
      assert forall i :: 1 <= i < |s| ==> s[i] == s[1..][i - 1];
      r
    else s
  }

  function TrimEnd(s: string): (r: string)
    ensures |r| <= |s| && r == s[..|r|]
    ensures r == [] || !IsWhitespace(r[|r| - 1])
    ensures forall i :: |r| <= i < |s| ==> IsWhitespace(s[i])
  {
    if |s| > 0 && IsWhitespace(s[|s| - 1]) then TrimEnd(s[..|s| - 1]) else s
  }

  /** `s.trim()`: the substring left after removing leading and trailing whitespace. */
  function Trim(s: string): (r: string)
    ensures r <= TrimStart(s)
    ensures r == [] || (!IsWhitespace(r[0]) && !IsWhitespace(r[|r| - 1]))
    ensures forall i :: |r| <= i < |TrimStart(s)| ==> IsWhitespace(TrimStart(s)[i])
  {
    var t := TrimStart(s);
    var r := TrimEnd(t);
    assert r == t[..|r|];
    r
  }

  /** `s.trim()` is empty exactly when every character of `s` is whitespace. */
  lemma TrimEmptyIffBlank(s: string)
    ensures Trim(s) == [] <==> forall i :: 0 <= i < |s| ==> IsWhitespace(s[i])
  {
    var t := TrimStart(s);
    if Trim(s) == [] {
      assert t == [];
    } else {
      assert !IsWhitespace(Trim(s)[0]);
      assert Trim(s)[0] == t[0] == s[|s| - |t|];
    }
  }

  // ---------------------------------------------------------------------------
  // parseInt

  predicate IsDigit(c: char) {
    '0' <= c <= '9'
  }

  predicate AllDigits(s: string) {
    forall i :: 0 <= i < |s| ==> IsDigit(s[i])
  }

  /** The longest prefix of `s` made of decimal digits. */
  function DigitPrefix(s: string): (d: string)
    ensures |d| <= |s| && d == s[..|d|]
    ensures AllDigits(d)
    ensures |d| == |s| || !IsDigit(s[|d|])
  {
    if |s| > 0 && IsDigit(s[0]) then [s[0]] + DigitPrefix(s[1..]) else []
  }

  /** The value of a string of decimal digits, most significant first. */
  function DigitsValue(d: string): nat
    requires AllDigits(d)
  {
    if d == [] then 0 else DigitsValue(d[..|d| - 1]) * 10 + (d[|d| - 1] as int - '0' as int)
  }

  /** The number a sign and a run of digits denote, once leading whitespace is gone. */
  function ParseSigned(t: string): (r: Number)
    ensures r.NaN? || r.Finite?
    ensures r.Finite? ==> r.value == r.value.Floor as real
  {
    var negative := |t| > 0 && t[0] == '-';
    var body := if |t| > 0 && (t[0] == '-' || t[0] == '+') then t[1..] else t;
    var d := DigitPrefix(body);
    if d == [] then NaN
    else
      var v: int := DigitsValue(d);
      var n: int := if negative then -v else v;
      assert (n as real).Floor == n;
      Finite(n as real)
  }

  /**
   * `parseInt(s, 10)`: skip leading whitespace, read an optional sign and the
   * longest run of digits after it; NaN when there is no digit.
   */
  function ParseInt(s: string): (r: Number)
    ensures r.NaN? || r.Finite?
    ensures r.Finite? ==> r.value == r.value.Floor as real
    decreases |s|
  {
    if |s| > 0 && IsWhitespace(s[0]) then ParseInt(s[1..]) else ParseSigned(s)
  }

  /** Leading whitespace does not change what `parseInt` reads. */
  lemma {:induction false} ParseIntSkipsWhitespace(s: string)
    ensures ParseInt(s) == ParseSigned(TrimStart(s))
    decreases |s|
  {
    if |s| > 0 && IsWhitespace(s[0]) {
      ParseIntSkipsWhitespace(s[1..]);
    }
  }

  /** A non-empty run of digits parses to its decimal value. */
  lemma ParseIntOfDigits(d: string)
    requires d != [] && AllDigits(d)
    ensures ParseInt(d) == Finite(DigitsValue(d) as real)
  {
    assert !IsWhitespace(d[0]);
    assert DigitPrefix(d) == d;
  }

  /** The digit run read from digits followed by a non-digit (or nothing) is exactly those digits. */
  lemma {:induction false} DigitPrefixOf(d: string, rest: string)
    requires AllDigits(d)
    requires rest == [] || !IsDigit(rest[0])
    ensures DigitPrefix(d + rest) == d
    decreases |d|
  {
    if d != [] {
      assert (d + rest)[1..] == d[1..] + rest;
      DigitPrefixOf(d[1..], rest);
    }
  }

  /** A run of digits followed by anything that does not start with a digit: `parseInt` reads the digits. */
  lemma ParseIntOfDigitsThen(d: string, rest: string)
    requires d != [] && AllDigits(d)
    requires rest == [] || !IsDigit(rest[0])
    ensures ParseInt(d + rest) == Finite(DigitsValue(d) as real)
  {
    var t := d + rest;
    assert t[0] == d[0];
    ParseIntAtNonWhitespace(t);
    DigitPrefixOf(d, rest);
    ParseSignedDigits(t);
  }

  /** A sign, a run of digits and a tail that does not start with a digit: the signed value of the digits. */
  lemma ParseIntOfSignedDigits(c: char, d: string, rest: string)
    requires c == '-' || c == '+'
    requires d != [] && AllDigits(d)
    requires rest == [] || !IsDigit(rest[0])
    ensures ParseInt([c] + (d + rest)) == Finite((if c == '-' then -(DigitsValue(d) as int) else DigitsValue(d)) as real)
  {
    var t := d + rest;
    assert t[0] == d[0];
    ParseIntAtNonWhitespace([c] + t);
    DigitPrefixOf(d, rest);
    ParseSignedDigitsAfterSign(c, t);
  }

  /** Without leading whitespace, `parseInt` goes straight to the sign and digits. */
  lemma ParseIntAtNonWhitespace(s: string)
    requires s != [] && !IsWhitespace(s[0])
    ensures ParseInt(s) == ParseSigned(s)
  {
  }

  /** Digits first: the value of the digit run. */
  lemma ParseSignedDigits(t: string)
    requires t != [] && IsDigit(t[0])
    ensures ParseSigned(t) == Finite(DigitsValue(DigitPrefix(t)) as real)
  {
  }

  /** A sign first: the digit run after it, negated for `-`. */
  lemma ParseSignedDigitsAfterSign(c: char, t: string)
    requires c == '-' || c == '+'
    requires t != [] && IsDigit(t[0])
    ensures ParseSigned([c] + t) == Finite((if c == '-' then -(DigitsValue(DigitPrefix(t)) as int) else DigitsValue(DigitPrefix(t))) as real)
  {
    assert ([c] + t)[1..] == t;
  }



}
