/**
 * The string operations the screens use: the `\d`, `\D` and `\s` character
 * classes of JavaScript regular expressions, `trim`, ASCII case mapping,
 * `indexOf`/`includes`, `replace` of the first occurrence, `split`, and
 * rendering and reading decimal numbers.
 */
module Text {
  import opened Values

  predicate IsDigit(c: char) { '0' <= c <= '9' }

  /** The characters of the `\s` class of JavaScript regular expressions, which are also
      the ones `trim` removes: the white space and line terminators of ECMAScript. */
  predicate IsSpace(c: char)
  {
    var u := c as int;
    (0x9 <= u <= 0xD) || u == 0x20 || u == 0xA0 || u == 0x1680 || (0x2000 <= u <= 0x200A)
    || u == 0x2028 || u == 0x2029 || u == 0x202F || u == 0x205F || u == 0x3000 || u == 0xFEFF
  }

  predicate AllDigits(s: string) { forall i :: 0 <= i < |s| ==> IsDigit(s[i]) }

  predicate NoSpace(s: string) { forall i :: 0 <= i < |s| ==> !IsSpace(s[i]) }

  /** `s.replace(/\D/g, '')`: the digits of `s`, in order. */
  function OnlyDigits(s: string): (r: string)
    ensures AllDigits(r)
    ensures |r| <= |s|
    ensures AllDigits(s) ==> r == s
    ensures |s| == 1 ==> r == (if IsDigit(s[0]) then s else [])
  {
    if s == [] then []
    else (if IsDigit(s[0]) then [s[0]] else []) + OnlyDigits(s[1..])
  }

  lemma {:induction false} OnlyDigitsConcat(a: string, b: string)
    ensures OnlyDigits(a + b) == OnlyDigits(a) + OnlyDigits(b)
  {
    if a == [] {
      assert a + b == b;
    } else {
      assert (a + b)[1..] == a[1..] + b;
      OnlyDigitsConcat(a[1..], b);
    }
  }

  /** Every digit of the input is kept, as often as it occurs. */
  lemma {:induction false} OnlyDigitsKeepsDigits(s: string)
    ensures forall c :: IsDigit(c) ==> multiset(OnlyDigits(s))[c] == multiset(s)[c]
  {
    if s != [] {
      assert s == [s[0]] + s[1..];
      OnlyDigitsKeepsDigits(s[1..]);
    }
  }

  /** `s.replace(/\s/g, '')`: `s` without its whitespace, in order. */
  function RemoveSpaces(s: string): (r: string)
    ensures NoSpace(r)
    ensures |r| <= |s|
    ensures NoSpace(s) ==> r == s
    ensures |s| == 1 ==> r == (if IsSpace(s[0]) then [] else s)
  {
    if s == [] then []
    else (if IsSpace(s[0]) then [] else [s[0]]) + RemoveSpaces(s[1..])
  }

  lemma {:induction false} RemoveSpacesConcat(a: string, b: string)
    ensures RemoveSpaces(a + b) == RemoveSpaces(a) + RemoveSpaces(b)
  {
    if a == [] {
      assert a + b == b;
    } else {
      assert (a + b)[1..] == a[1..] + b;
      RemoveSpacesConcat(a[1..], b);
    }
  }

  /** Every character that is not whitespace is kept, as often as it occurs. */
  lemma {:induction false} RemoveSpacesKeepsRest(s: string)
    ensures forall c :: !IsSpace(c) ==> multiset(RemoveSpaces(s))[c] == multiset(s)[c]
  {
    if s != [] {
      assert s == [s[0]] + s[1..];
      RemoveSpacesKeepsRest(s[1..]);
    }
  }

  function TrimStart(s: string): (r: string)
    ensures |r| <= |s| && r == s[|s| - |r|..]
    ensures r != [] ==> !IsSpace(r[0])
    ensures forall i :: 0 <= i < |s| - |r| ==> IsSpace(s[i])
  {
    if s != [] && IsSpace(s[0]) then TrimStart(s[1..]) else s
  }

  function TrimEnd(s: string): (r: string)
    ensures |r| <= |s| && r == s[..|r|]
    ensures r != [] ==> !IsSpace(r[|r| - 1])
    ensures forall i :: |r| <= i < |s| ==> IsSpace(s[i])
  {
    if s != [] && IsSpace(s[|s| - 1]) then TrimEnd(s[..|s| - 1]) else s
  }

  /** `s.trim()`: `s` without leading and trailing whitespace. */
  function Trim(s: string): (r: string)
  {
    TrimEnd(TrimStart(s))
  }

  /** `!s.trim()`: the string is empty or all whitespace. */
  predicate IsBlank(s: string) { Trim(s) == "" }

  lemma BlankIffAllSpace(s: string)
    ensures IsBlank(s) <==> forall i :: 0 <= i < |s| ==> IsSpace(s[i])
  {
    var t := TrimStart(s);
    if IsBlank(s) {
      assert t == [];
    }
    if forall i :: 0 <= i < |s| ==> IsSpace(s[i]) {
      if t != [] {
        assert t[0] == s[|s| - |t|];
      }
    }
  }

  /** Trimming a string without whitespace changes nothing. */
  lemma NoSpaceTrim(s: string)
    requires NoSpace(s)
    ensures Trim(s) == s
  {
    if s != [] {
      assert !IsSpace(s[0]) && !IsSpace(s[|s| - 1]);
    }
  }

  /** Trimming a string that neither starts nor ends with whitespace changes nothing. */
  lemma TrimmedEnds(s: string)
    requires s != [] ==> !IsSpace(s[0]) && !IsSpace(s[|s| - 1])
    ensures Trim(s) == s
  {
  }

  /** `s.trim().trim() === s.trim()`. */
  lemma TrimIdempotent(s: string)
    ensures Trim(Trim(s)) == Trim(s)
  {
    TrimBounds(s);
    TrimmedEnds(Trim(s));
  }

  lemma {:induction false} TrimBounds(s: string)
    ensures exists i, j :: 0 <= i <= j <= |s| && Trim(s) == s[i..j]
    ensures Trim(s) != [] ==> !IsSpace(Trim(s)[0]) && !IsSpace(Trim(s)[|Trim(s)| - 1])
  {
    var t := TrimStart(s);
    var r := TrimEnd(t);
    assert r == s[|s| - |t|..][..|r|];
    assert r == s[|s| - |t|..|s| - |t| + |r|];
    if r != [] {
      assert r[0] == t[0];
    }
  }

  function LowerChar(c: char): char
  {
    if 'A' <= c <= 'Z' then (c as int + 32) as char else c
  }

  function UpperChar(c: char): char
  {
    if 'a' <= c <= 'z' then (c as int - 32) as char else c
  }

  /** `s.toLowerCase()` restricted to the ASCII letters. */
  function Lower(s: string): (r: string)
    ensures |r| == |s| && forall i :: 0 <= i < |s| ==> r[i] == LowerChar(s[i])
  {
    seq(|s|, i requires 0 <= i < |s| => LowerChar(s[i]))
  }

  /** `s.toUpperCase()` restricted to the ASCII letters. */
  function Upper(s: string): (r: string)
    ensures |r| == |s| && forall i :: 0 <= i < |s| ==> r[i] == UpperChar(s[i])
  {
    seq(|s|, i requires 0 <= i < |s| => UpperChar(s[i]))
  }

  lemma LowerIdempotent(s: string)
    ensures Lower(Lower(s)) == Lower(s)
  {
  }

  /** `pat` stands in `s` at position `i`. */
  predicate OccursAt(s: string, pat: string, i: int)
  {
    0 <= i && i + |pat| <= |s| && s[i..i + |pat|] == pat
  }

  /** `s.indexOf(pat)`, with `None` for -1. */
  function IndexOf(s: string, pat: string): (r: Option<nat>)
    ensures r.Some? ==> OccursAt(s, pat, r.value)
    ensures r.Some? ==> forall j :: 0 <= j < r.value ==> !OccursAt(s, pat, j)
    ensures r.None? ==> forall j :: 0 <= j <= |s| ==> !OccursAt(s, pat, j)
    decreases |s|
  {
    if |pat| <= |s| && s[..|pat|] == pat then
      assert s[0..|pat|] == s[..|pat|];
      Some(0)
    else if s == [] then None
    else
      var rest := IndexOf(s[1..], pat);
      assert !OccursAt(s, pat, 0) by {
        if |pat| <= |s| { assert s[0..|pat|] == s[..|pat|]; }
      }
      ShiftOccurs(s, pat);
      if rest.Some? then Some(rest.value + 1) else None
  }

  lemma ShiftOccurs(s: string, pat: string)
    requires s != []
    ensures forall j :: 1 <= j ==> (OccursAt(s, pat, j) <==> OccursAt(s[1..], pat, j - 1))
  {
    forall j | 1 <= j
      ensures OccursAt(s, pat, j) <==> OccursAt(s[1..], pat, j - 1)
    {
      if j + |pat| <= |s| {
        var t := s[1..];
        assert forall i | j <= i < j + |pat| :: s[i] == t[i - 1];
        assert s[j..j + |pat|] == t[j - 1..j - 1 + |pat|];
      }
    }
  }

  /** `s.includes(pat)`. */
  predicate Contains(s: string, pat: string)
  {
    IndexOf(s, pat).Some?
  }

  lemma ContainsIff(s: string, pat: string)
    ensures Contains(s, pat) <==> exists j :: OccursAt(s, pat, j)
  {
    if exists j :: OccursAt(s, pat, j) {
      var j :| OccursAt(s, pat, j);
      assert j <= |s|;
    }
  }

  /** A pattern with a character that `s` lacks does not occur in `s`. */
  lemma MissingCharNotContained(s: string, pat: string, k: nat)
    requires k < |pat| && pat[k] !in s
    ensures !Contains(s, pat)
  {
    ContainsIff(s, pat);
  }

  /** Cutting out a prefix that starts the string leaves the rest. */
  lemma RemoveFirstPrefix(pat: string, rest: string)
    ensures RemoveFirst(pat + rest, pat) == rest
  {
    assert (pat + rest)[..|pat|] == pat;
    assert IndexOf(pat + rest, pat) == Some(0);
    assert (pat + rest)[|pat|..] == rest;
  }

  /** `s.replace(pat, '')` with a string pattern: the first occurrence is cut out. */
  function RemoveFirst(s: string, pat: string): (r: string)
    ensures IndexOf(s, pat).None? ==> r == s
    ensures IndexOf(s, pat).Some? ==>
      var i := IndexOf(s, pat).value; r == s[..i] + s[i + |pat|..]
  {
    match IndexOf(s, pat)
    case None => s
    case Some(i) => s[..i] + s[i + |pat|..]
  }

  /** The inverse of `Split`: the parts glued back with `sep`. */
  function Join(parts: seq<string>, sep: char): string
  {
    if parts == [] then ""
    else if |parts| == 1 then parts[0]
    else parts[0] + [sep] + Join(parts[1..], sep)
  }

  function IndexOfChar(s: string, c: char): (r: Option<nat>)
    ensures r.Some? ==> r.value < |s| && s[r.value] == c && c !in s[..r.value]
    ensures r.None? ==> c !in s
  {
    if s == [] then None
    else if s[0] == c then Some(0)
    else
      var rest := IndexOfChar(s[1..], c);
      if rest.Some? then
        assert s[..rest.value + 1] == [s[0]] + s[1..][..rest.value];
        Some(rest.value + 1)
      else None
  }

  /** `s.split(sep)` with a one-character separator. */
  function Split(s: string, sep: char): (parts: seq<string>)
    ensures |parts| >= 1
    ensures forall k :: 0 <= k < |parts| ==> sep !in parts[k]
    ensures Join(parts, sep) == s
    decreases |s|
  {
    match IndexOfChar(s, sep)
    case None => [s]
    case Some(i) =>
      var rest := Split(s[i + 1..], sep);
      assert s == s[..i] + [sep] + s[i + 1..];
      [s[..i]] + rest
  }

  lemma DigitsNoChar(s: string, c: char)
    requires AllDigits(s) && !IsDigit(c)
    ensures c !in s
  {
  }

  /** Two separator-free pieces joined by one separator split back into those pieces. */
  lemma SplitPair(a: string, b: string, sep: char)
    requires sep !in a && sep !in b
    ensures Split(a + [sep] + b, sep) == [a, b]
  {
    var s := a + [sep] + b;
    assert IndexOfChar(s, sep) == Some(|a|) by {
      IndexOfCharAt(s, sep, |a|);
    }
    assert s[..|a|] == a;
    assert s[|a| + 1..] == b;
    assert IndexOfChar(b, sep) == None;
    assert Split(b, sep) == [b];
  }

  lemma IndexOfCharAt(s: string, c: char, i: nat)
    requires i < |s| && s[i] == c && c !in s[..i]
    ensures IndexOfChar(s, c) == Some(i)
  {
  }

  /** `s.split(sep).pop()`: the text after the last separator. */
  function LastSegment(s: string, sep: char): string
  {
    var parts := Split(s, sep);
    parts[|parts| - 1]
  }

  lemma {:induction false} JoinLast(parts: seq<string>, sep: char)
    requires |parts| >= 1
    ensures var last := parts[|parts| - 1];
      var j := Join(parts, sep);
      |last| <= |j| && j[|j| - |last|..] == last && (|parts| > 1 ==> |last| < |j| && j[|j| - |last| - 1] == sep)
  {
    if |parts| > 1 {
      JoinLast(parts[1..], sep);
      var j' := Join(parts[1..], sep);
      assert Join(parts, sep) == (parts[0] + [sep]) + j';
    }
  }

  /** The last segment carries no separator, ends the string, and is either the whole
      string or follows a separator. */
  lemma LastSegmentShape(s: string, sep: char)
    ensures var r := LastSegment(s, sep);
      sep !in r && |r| <= |s| && s[|s| - |r|..] == r
      && (r == s || (|r| < |s| && s[|s| - |r| - 1] == sep))
  {
    var parts := Split(s, sep);
    JoinLast(parts, sep);
    if |parts| == 1 {
      assert Join(parts, sep) == parts[0];
    }
  }

  /** A separator at `k` means that the first separator is no later than `k`. */
  lemma FirstSepAtMost(s: string, sep: char, k: nat)
    requires k < |s| && s[k] == sep
    ensures IndexOfChar(s, sep).Some? && IndexOfChar(s, sep).value <= k
  {
    assert s[k] in s;
    var i := IndexOfChar(s, sep).value;
    assert forall j :: 0 <= j < i ==> s[j] == s[..i][j];
  }

  /** The last segment is unchanged by dropping everything up to the first separator. */
  lemma LastSegmentStep(s: string, sep: char, i: nat)
    requires IndexOfChar(s, sep) == Some(i)
    ensures LastSegment(s, sep) == LastSegment(s[i + 1..], sep)
  {
    var rest := Split(s[i + 1..], sep);
    assert Split(s, sep) == [s[..i]] + rest;
  }

  /** With the last separator at `k`, the last segment is everything after `k`. */
  lemma {:induction false} LastSegmentFrom(s: string, sep: char, k: nat)
    requires k < |s| && s[k] == sep && sep !in s[k + 1..]
    ensures LastSegment(s, sep) == s[k + 1..]
    decreases k
  {
    FirstSepAtMost(s, sep, k);
    var i := IndexOfChar(s, sep).value;
    LastSegmentStep(s, sep, i);
    var t := s[i + 1..];
    if i == k {
      LastSegmentNoSep(t, sep);
    } else {
      assert t[k - i - 1] == sep;
      assert t[k - i..] == s[k + 1..];
      LastSegmentFrom(t, sep, k - i - 1);
    }
  }

  /** The last segment is what follows the last separator. */
  lemma LastSegmentAfter(a: string, b: string, sep: char)
    requires sep !in b
    ensures LastSegment(a + [sep] + b, sep) == b
  {
    var s := a + [sep] + b;
    assert s[|a| + 1..] == b;
    LastSegmentFrom(s, sep, |a|);
  }

  lemma LastSegmentNoSep(s: string, sep: char)
    requires sep !in s
    ensures LastSegment(s, sep) == s
  {
  }

  function DigitChar(d: nat): char
    requires d < 10
  {
    ('0' as int + d) as char
  }

  function DigitValue(c: char): nat
    requires IsDigit(c)
  {
    c as int - '0' as int
  }

  /** The decimal rendering of a natural number, as template literals produce it. */
  function NatToString(n: nat): (r: string)
    ensures r != [] && AllDigits(r)
    ensures |r| > 1 ==> r[0] != '0'
    decreases n
  {
    if n < 10 then [DigitChar(n)] else NatToString(n / 10) + [DigitChar(n % 10)]
  }

  /** The value of a string of decimal digits. */
  function DecimalValue(s: string): nat
    requires AllDigits(s)
  {
    if s == [] then 0 else DecimalValue(s[..|s| - 1]) * 10 + DigitValue(s[|s| - 1])
  }

  lemma {:induction false} NatToStringRoundTrip(n: nat)
    ensures DecimalValue(NatToString(n)) == n
    decreases n
  {
    var r := NatToString(n);
    if n >= 10 {
      NatToStringRoundTrip(n / 10);
      assert r[..|r| - 1] == NatToString(n / 10);
    }
  }

  /** `Number(s)` for the strings a clock field holds: leading and trailing whitespace
      ignored, the empty string is 0, a run of decimal digits is its value, and anything
      else is NaN (`None`). */
  function ParseNumber(s: string): (r: Option<nat>)
    ensures r.Some? <==> AllDigits(Trim(s))
  {
    var t := Trim(s);
    if AllDigits(t) then Some(DecimalValue(t)) else None
  }

  lemma ParseNumberOfNat(n: nat)
    ensures ParseNumber(NatToString(n)) == Some(n)
  {
    var r := NatToString(n);
    assert !IsSpace(r[0]);
    assert TrimStart(r) == r;
    assert !IsSpace(r[|r| - 1]);
    assert TrimEnd(r) == r;
    NatToStringRoundTrip(n);
  }

  /** `s.substring(0, n)`. */
  function Prefix(s: string, n: nat): (r: string)
    ensures |r| == if |s| < n then |s| else n
    ensures r == s[..|r|]
  {
    if |s| < n then s else s[..n]
  }
}
