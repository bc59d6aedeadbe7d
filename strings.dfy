/** String helpers shared by the scripts: the parts of Python's `str` that the
    keyword pipeline relies on (`strip`, `lower`, `replace`, `split`, `join`,
    slicing, `startswith`, `in`, `isdigit`, `int`). Whitespace and case are
    modelled on ASCII. */
module Strings {

  /** The ASCII characters Python's `str.strip()` removes: space, tab, line
      feed, vertical tab, form feed, carriage return, and the file, group,
      record and unit separators 0x1C to 0x1F. */
  predicate IsSpace(c: char) {
    c == ' ' || c == '\t' || c == '\n' || c == '\r' || c as int == 11 || c as int == 12
    || 0x1C <= c as int <= 0x1F
  }

  predicate AllSpace(s: string) {
    forall k :: 0 <= k < |s| ==> IsSpace(s[k])
  }

  function TrimStart(s: string): (r: string)
    ensures |r| <= |s| && r == s[|s| - |r|..]
    ensures r == [] || !IsSpace(r[0])
    ensures AllSpace(s[..|s| - |r|])
  {
    if s != [] && IsSpace(s[0]) then TrimStart(s[1..]) else s
  }

  function TrimEnd(s: string): (r: string)
    ensures |r| <= |s| && r == s[..|r|]
    ensures r == [] || !IsSpace(r[|r| - 1])
    ensures AllSpace(s[|r|..])
  {
    if s != [] && IsSpace(s[|s| - 1]) then TrimEnd(s[..|s| - 1]) else s
  }

  /** Python's `s.strip()`: the result is `s` without its leading and trailing
      whitespace; it is empty exactly when `s` is all whitespace. */
  function Strip(s: string): (r: string)
    ensures |r| <= |s|
    ensures r == [] <==> AllSpace(s)
    ensures r != [] ==> !IsSpace(r[0]) && !IsSpace(r[|r| - 1])
  {
    var t := TrimStart(s);
    var r := TrimEnd(t);
    r
  }

  /** `s.strip()` is truthy, that is, `s` is not all whitespace. */
  predicate NonBlank(s: string) { !AllSpace(s) }

  /** Stripping only removes characters. */
  lemma StripInside(s: string)
    ensures forall c :: c in Strip(s) ==> c in s
  {
    var t := TrimStart(s);
    var r := TrimEnd(t);
    var a := |s| - |t|;
    assert r == s[a..a + |r|] by {
      assert r == t[..|r|] && t == s[a..];
    }
    SliceInside(s, a, a + |r|);
  }

  lemma SliceInside(s: string, a: nat, b: nat)
    requires a <= b <= |s|
    ensures forall c :: c in s[a..b] ==> c in s
  {
    forall c | c in s[a..b] ensures c in s {
      var i :| a <= i < b && s[i] == c;
    }
  }

  /** Stripping twice is stripping once. */
  lemma StripIdempotent(s: string)
    ensures Strip(Strip(s)) == Strip(s)
  {
    var r := Strip(s);
    if r != [] {
      assert TrimStart(r) == r;
      assert TrimEnd(r) == r;
    }
  }

  function LowerChar(c: char): char {
    if 'A' <= c <= 'Z' then (c as int + 32) as char else c
  }

  /** Python's `s.lower()` on ASCII letters. */
  function Lower(s: string): (r: string)
    ensures |r| == |s|
    ensures forall k :: 0 <= k < |s| ==> r[k] == LowerChar(s[k])
  {
    seq(|s|, k requires 0 <= k < |s| => LowerChar(s[k]))
  }

  function UpperChar(c: char): char {
    if 'a' <= c <= 'z' then (c as int - 32) as char else c
  }

  /** Python's `s.upper()` on ASCII letters. */
  function Upper(s: string): (r: string)
    ensures |r| == |s|
    ensures forall k :: 0 <= k < |s| ==> r[k] == UpperChar(s[k])
  {
    seq(|s|, k requires 0 <= k < |s| => UpperChar(s[k]))
  }

  /** Python's `s.startswith(p)`. */
  predicate StartsWith(s: string, p: string) {
    p <= s
  }

  /** Python's `sub in s`. */
  predicate Contains(s: string, sub: string)
    decreases |s|
  {
    sub <= s || (s != [] && Contains(s[1..], sub))
  }

  /** `Contains` holds exactly when `sub` occurs at some position of `s`. */
  lemma {:induction false} ContainsAt(s: string, sub: string, i: nat)
    requires i + |sub| <= |s| && s[i..i + |sub|] == sub
    ensures Contains(s, sub)
    decreases i
  {
    if i == 0 {
      assert s[..|sub|] == sub;
    } else {
      assert s[1..][i - 1..i - 1 + |sub|] == s[i..i + |sub|];
      ContainsAt(s[1..], sub, i - 1);
    }
  }

  /** A string with no occurrence of the first character of `sub` does not contain it. */
  lemma {:induction false} NotContainsWithoutChar(s: string, sub: string)
    requires sub != [] && sub[0] !in s
    ensures !Contains(s, sub)
    decreases |s|
  {
    if s != [] {
      assert sub[0] != s[0];
      NotContainsWithoutChar(s[1..], sub);
    }
  }

  /** Python's `s.replace(a, b)` for single characters. */
  function ReplaceChar(s: string, a: char, b: char): (r: string)
    ensures |r| == |s|
    ensures forall k :: 0 <= k < |s| ==> r[k] == (if s[k] == a then b else s[k])
  {
    seq(|s|, k requires 0 <= k < |s| => if s[k] == a then b else s[k])
  }

  /** Python's `s.replace(pat, rep)`: left-to-right, non-overlapping. */
  function ReplaceAll(s: string, pat: string, rep: string): string
    requires pat != []
    decreases |s|
  {
    if |s| < |pat| then s
    else if pat <= s then rep + ReplaceAll(s[|pat|..], pat, rep)
    else [s[0]] + ReplaceAll(s[1..], pat, rep)
  }

  /** Replacing a pattern that does not occur leaves the string unchanged. */
  lemma {:induction false} ReplaceAllAbsent(s: string, pat: string, rep: string)
    requires pat != [] && !Contains(s, pat)
    ensures ReplaceAll(s, pat, rep) == s
    decreases |s|
  {
    if |s| >= |pat| {
      ReplaceAllAbsent(s[1..], pat, rep);
      assert [s[0]] + s[1..] == s;
    }
  }

  /** Python's `s[:n]` for `n >= 0`. */
  function Take(s: string, n: nat): (r: string)
    ensures |r| <= n && r <= s
    ensures |s| <= n ==> r == s
    ensures |s| > n ==> |r| == n
  {
    if |s| <= n then s else s[..n]
  }

  /** `keyword.replace(" ", "_").replace("/", "_")[:n]`, the folder and file name
      stem used by the batch, per-keyword and screenshot scripts. */
  function SafeName(keyword: string, n: nat): (r: string)
    ensures |r| == if |keyword| <= n then |keyword| else n
    ensures ' ' !in r && '/' !in r
    ensures forall k :: 0 <= k < |r| ==>
      r[k] == (if keyword[k] == ' ' || keyword[k] == '/' then '_' else keyword[k])
  {
    Take(ReplaceChar(ReplaceChar(keyword, ' ', '_'), '/', '_'), n)
  }

  /** The first position of `c` in `s` (`s.index(c)`). */
  function IndexOf<T(==)>(s: seq<T>, c: T): (i: nat)
    requires c in s
    ensures i < |s| && s[i] == c && c !in s[..i]
  {
    if s[0] == c then 0 else 1 + IndexOf(s[1..], c)
  }

  /** Python's `s.split(sep)` for a one-character separator. */
  function Split(s: string, sep: char): (r: seq<string>)
    ensures |r| >= 1
    ensures forall p :: p in r ==> sep !in p
    decreases |s|
  {
    if sep !in s then [s]
    else
      var i := IndexOf(s, sep);
      [s[..i]] + Split(s[i + 1..], sep)
  }

  /** Python's `sep.join(parts)`. */
  function Join(parts: seq<string>, sep: string): string
  {
    if parts == [] then []
    else if |parts| == 1 then parts[0]
    else parts[0] + sep + Join(parts[1..], sep)
  }

  /** A string contains whatever its suffix contains. */
  lemma {:induction false} ContainsAfter(a: string, t: string, sub: string)
    requires Contains(t, sub)
    ensures Contains(a + t, sub)
    decreases |a|
  {
    if a != [] {
      assert (a + t)[1..] == a[1..] + t;
      ContainsAfter(a[1..], t, sub);
    } else {
      assert a + t == t;
    }
  }

  /** A join contains each of its parts. */
  lemma {:induction false} JoinHasPart(parts: seq<string>, sep: string, k: nat)
    requires k < |parts|
    ensures Contains(Join(parts, sep), parts[k])
    decreases k
  {
    if k == 0 {
      if |parts| > 1 {
        assert Join(parts, sep) == parts[0] + (sep + Join(parts[1..], sep));
      }
      ContainsAt(Join(parts, sep), parts[0], 0);
    } else {
      JoinHasPart(parts[1..], sep, k - 1);
      ContainsAfter(parts[0] + sep, Join(parts[1..], sep), parts[k]);
    }
  }

  /** Splitting on a character and joining with it gives back the string. */
  lemma {:induction false} JoinSplit(s: string, sep: char)
    ensures Join(Split(s, sep), [sep]) == s
    decreases |s|
  {
    if sep in s {
      var i := IndexOf(s, sep);
      JoinSplit(s[i + 1..], sep);
      assert s == s[..i] + [sep] + s[i + 1..];
    }
  }

  /** Joining pieces free of the separator and splitting again gives the
      pieces back. */
  lemma {:induction false} SplitJoin(parts: seq<string>, sep: char)
    requires parts != []
    requires forall k :: 0 <= k < |parts| ==> sep !in parts[k]
    ensures Split(Join(parts, [sep]), sep) == parts
  {
    if |parts| > 1 {
      var p, rest := parts[0], Join(parts[1..], [sep]);
      var s := p + [sep] + rest;
      assert s[|p|] == sep;
      var i := IndexOf(s, sep);
      assert i == |p| by {
        assert forall k :: 0 <= k < |p| ==> s[k] == p[k];
        assert i <= |p| ==> s[..i] <= p;
      }
      assert s[..i] == p && s[i + 1..] == rest;
      SplitJoin(parts[1..], sep);
    }
  }

  /** Python's `[x.strip() for x in parts]`. */
  function StripEach(parts: seq<string>): (r: seq<string>)
    ensures |r| == |parts|
    ensures forall k :: 0 <= k < |r| ==> r[k] == Strip(parts[k])
  {
    if parts == [] then [] else [Strip(parts[0])] + StripEach(parts[1..])
  }

  /** A string without whitespace at either end is its own strip. */
  lemma StripFixed(s: string)
    requires s != [] && !IsSpace(s[0]) && !IsSpace(s[|s| - 1])
    ensures Strip(s) == s
  {
    assert TrimStart(s) == s;
    assert TrimEnd(s) == s;
  }

  predicate IsDigit(c: char) {
    '0' as int <= c as int <= '9' as int
  }

  /** Python's `s.isdigit()` on ASCII: non-empty and only digits. */
  predicate IsDigits(s: string) {
    s != [] && forall k :: 0 <= k < |s| ==> IsDigit(s[k])
  }

  /** The value of a string of decimal digits. */
  function DigitsValue(s: string): nat
    requires forall k :: 0 <= k < |s| ==> IsDigit(s[k])
  {
    if s == [] then 0
    else
      assert IsDigit(s[|s| - 1]);
      DigitsValue(s[..|s| - 1]) * 10 + (s[|s| - 1] as int - '0' as int)
  }

  /** Python's `int(s)`: surrounding whitespace, an optional sign, then one or
      more decimal digits; anything else raises `ValueError` (here `None`). */
  function ParseInt(s: string): (r: Option<int>)
    ensures r.Some? ==> Strip(s) != []
  {
    var t := Strip(s);
    if t == [] then None
    else
      var neg := t[0] == '-';
      var body := if t[0] == '-' || t[0] == '+' then t[1..] else t;
      if !IsDigits(body) then None
      else Some(if neg then -(DigitsValue(body) as int) else DigitsValue(body) as int)
  }

  /** A string of ASCII digits always converts: `int` cannot raise on it, and
      its value is the digits' value. (Python's `isdigit()` also accepts
      digits such as superscripts that `int` rejects; those are outside the
      ASCII model.) */
  lemma DigitsParse(s: string)
    requires IsDigits(s)
    ensures ParseInt(s) == Some(DigitsValue(s) as int)
  {
    assert !IsSpace(s[0]) && !IsSpace(s[|s| - 1]);
    assert TrimStart(s) == s;
    assert TrimEnd(s) == s;
  }

  /** Python's `str(n)` for a natural number. */
  function NatToString(n: nat): (r: string)
    ensures IsDigits(r)
    decreases n
  {
    var d := ['0' + (n % 10) as char];
    if n < 10 then d else NatToString(n / 10) + d
  }

  /** `int(str(n)) == n`: the decimal text of a number reads back as that number. */
  lemma {:induction false} NatToStringValue(n: nat)
    ensures DigitsValue(NatToString(n)) == n
    decreases n
  {
    var r := NatToString(n);
    if n >= 10 {
      NatToStringValue(n / 10);
      assert r[..|r| - 1] == NatToString(n / 10);
    }
  }

  /** Python's `str(i)` for an integer. */
  function IntToString(i: int): (r: string)
    ensures r != []
  {
    if i < 0 then "-" + NatToString(-i) else NatToString(i)
  }

  lemma IntToStringParses(i: int)
    ensures ParseInt(IntToString(i)) == Some(i)
  {
    var n: nat := if i < 0 then -i else i;
    NatToStringValue(n);
    if i < 0 {
      NegativeParse(NatToString(n));
    } else {
      DigitsParse(NatToString(n));
    }
  }

  /** A minus sign followed by digits reads as the negated value. */
  lemma NegativeParse(d: string)
    requires IsDigits(d)
    ensures ParseInt("-" + d) == Some(-(DigitsValue(d) as int))
  {
    var r := "-" + d;
    assert IsDigit(d[|d| - 1]);
    assert r[0] == '-' && r[|r| - 1] == d[|d| - 1];
    StripFixed(r);
    assert r[1..] == d;
    assert ParseInt(r) == Some(-(DigitsValue(r[1..]) as int));
  }

  /** No entry occurs twice. */
  predicate NoDuplicates<T(==)>(s: seq<T>) {
    forall i, j :: 0 <= i < j < |s| ==> s[i] != s[j]
  }

  /** In a list without repeats, the position of an element is where
      `index` finds it. */
  lemma IndexOfDistinct<T>(s: seq<T>, k: nat)
    requires NoDuplicates(s) && k < |s|
    ensures IndexOf(s, s[k]) == k
  {
  }

  /** `index` finds the first occurrence. */
  lemma IndexOfFirst<T>(s: seq<T>, c: T, k: nat)
    requires k < |s| && s[k] == c && c !in s[..k]
    ensures IndexOf(s, c) == k
  {
  }

  /** Python's `s.remove(x)`: the first occurrence goes; an absent `x`
      (where Python raises) leaves `s` as it is. */
  function RemoveFirst<T(==)>(s: seq<T>, x: T): (r: seq<T>)
    ensures x !in s ==> r == s
    ensures |r| == (if x in s then |s| - 1 else |s|)
    ensures forall y :: y in r ==> y in s
    ensures forall y :: y in s && y != x ==> y in r
  {
    if s == [] then []
    else if s[0] == x then s[1..]
    else
      assert s == [s[0]] + s[1..];
      [s[0]] + RemoveFirst(s[1..], x)
  }

  /** `RemoveFirst` cuts out exactly the first occurrence and keeps the
      order of everything else. */
  lemma {:induction false} RemoveFirstSplits<T>(s: seq<T>, x: T, i: nat)
    requires i < |s| && s[i] == x && x !in s[..i]
    ensures RemoveFirst(s, x) == s[..i] + s[i + 1..]
  {
    if i > 0 {
      assert s[0] != x by {
        assert s[0] == s[..i][0];
      }
      assert x !in s[1..][..i - 1] by {
        assert s[1..][..i - 1] == s[1..i];
      }
      RemoveFirstSplits(s[1..], x, i - 1);
      assert s[1..][..i - 1] == s[1..i];
      assert [s[0]] + s[1..i] == s[..i];
    }
  }

  /** Python's `s.insert(i, x)` for `i >= 0`: past the end it appends. */
  function ListInsert<T>(s: seq<T>, i: nat, x: T): (r: seq<T>)
    ensures |r| == |s| + 1
    ensures i <= |s| ==> r == s[..i] + [x] + s[i..] && r[i] == x
    ensures i > |s| ==> r == s + [x]
  {
    if i <= |s| then s[..i] + [x] + s[i..] else s + [x]
  }

  /** Inserting adds exactly the inserted value. */
  lemma ListInsertMembers<T>(s: seq<T>, i: nat, x: T)
    ensures forall y :: y in ListInsert(s, i, x) <==> y in s || y == x
  {
    if i <= |s| {
      assert s == s[..i] + s[i..];
    }
  }

  /** The clause an optional form answer contributes, `f"{pre}{v}{post}"`
      when `v` is not empty and nothing otherwise: one
      `if v: parts.append(...)`. */
  function Clause(pre: string, v: string, post: string): (r: seq<string>)
    ensures v == [] <==> r == []
    ensures v != [] ==> r == [pre + v + post]
  {
    if v != [] then [pre + v + post] else []
  }

  /** A clause with no text after the value. */
  lemma NoSuffixText(pre: string, v: string)
    ensures pre + v + "" == pre + v
  {
  }

  /** One answer of a form: a value that is not empty adds its clause
      (`pre`, the value, `post`) to the parts. */
  method AddClause(parts: seq<string>, pre: string, v: string, post: string) returns (r: seq<string>)
    ensures r == parts + Clause(pre, v, post)
  {
    r := parts;
    if v != [] {
      r := r + [pre + v + post];
    }
  }

  /** Python's `s.rfind(c)`: the last position of `c`, or -1. */
  function RFind(s: string, c: char): (r: int)
    ensures -1 <= r < |s|
    ensures r >= 0 ==> s[r] == c
    ensures forall k :: r < k < |s| ==> s[k] != c
  {
    if s == [] then -1
    else if s[|s| - 1] == c then |s| - 1
    else RFind(s[..|s| - 1], c)
  }

  predicate AllDots(s: string) {
    forall k :: 0 <= k < |s| ==> s[k] == '.'
  }

  /** Where `os.path.splitext(p)` cuts a POSIX path: at the last dot of the
      last path component, unless only dots come before that dot in the
      component (so `.bashrc` has no extension); `|p|` when there is no
      extension. */
  function ExtStart(p: string): (i: nat)
    ensures i <= |p|
    ensures i < |p| ==> p[i] == '.'
    ensures forall k :: i < k < |p| ==> p[k] != '.' && p[k] != '/'
  {
    var slash := RFind(p, '/');
    var dot := RFind(p, '.');
    if dot > slash && !AllDots(p[slash + 1..dot]) then dot else |p|
  }

  /** `os.path.splitext(p)`: root and extension make up the path again, and
      the extension is empty or a dot followed by neither dots nor slashes. */
  function SplitExt(p: string): (r: (string, string))
    ensures r.0 + r.1 == p
    ensures r.1 != [] ==> r.1[0] == '.'
    ensures forall k :: 0 < k < |r.1| ==> r.1[k] != '/' && r.1[k] != '.'
  {
    var i := ExtStart(p);
    assert forall k :: 0 < k < |p| - i ==> p[i..][k] == p[i + k];
    (p[..i], p[i..])
  }

  /** A name whose stem ends in a character other than a dot or a slash,
      followed by one extension, splits into exactly that stem and
      extension. */
  lemma SplitExtAt(stem: string, ext: string)
    requires stem != [] && stem[|stem| - 1] != '.' && stem[|stem| - 1] != '/'
    requires forall k :: 0 <= k < |ext| ==> ext[k] != '.' && ext[k] != '/'
    ensures SplitExt(stem + "." + ext) == (stem, "." + ext)
  {
    var p := stem + "." + ext;
    var n := |stem|;
    assert p[n] == '.' && p[n - 1] != '.' && p[n - 1] != '/'
           && forall k :: n < k < |p| ==> p[k] != '.' && p[k] != '/' by {
      assert p[n - 1] == stem[n - 1];
      forall k | n < k < |p| ensures p[k] != '.' && p[k] != '/' {
        assert p[k] == ext[k - n - 1];
      }
    }
    ExtStartAt(p, n);
    assert p[..n] == stem && p[n..] == "." + ext;
  }

  /** A dot preceded by a character of the same component that is not a dot and
      followed by no dot or slash starts the extension. */
  lemma ExtStartAt(p: string, n: nat)
    requires 0 < n < |p| && p[n] == '.' && p[n - 1] != '.' && p[n - 1] != '/'
    requires forall k :: n < k < |p| ==> p[k] != '.' && p[k] != '/'
    ensures ExtStart(p) == n
  {
    RFindLast(p, '.', n);
    RFindBefore(p, '/', n - 1);
    var slash := RFind(p, '/');
    assert !AllDots(p[slash + 1..n]) by {
      assert p[slash + 1..n][n - 1 - (slash + 1)] == p[n - 1];
    }
  }

  lemma RFindLast(p: string, c: char, n: nat)
    requires n < |p| && p[n] == c && forall k :: n < k < |p| ==> p[k] != c
    ensures RFind(p, c) == n
  {
  }

  lemma RFindBefore(p: string, c: char, m: nat)
    requires m <= |p| && forall k :: m <= k < |p| ==> p[k] != c
    ensures RFind(p, c) < m
  {
  }

  datatype Option<+T> = None | Some(value: T)

  /** A value, or the message of the exception raised instead. */
  datatype Result<+T> = Success(value: T) | Failure(error: string)
}
