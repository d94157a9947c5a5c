/**
 The string operations of Python's `str` that the modelled code relies on:
 `lower`, `replace` of one character, `split()` on whitespace, `split(sep)`,
 `sep.join`, `strip()` / `strip(chars)` and `int()` on a decimal string.
 Strings are sequences of Unicode scalar values; Python's lone surrogates are not modelled.
 */
module Text {

  import opened Wrappers

  /** The characters for which Python's `str.isspace` holds; `str.split()`
      and `str.strip()` use exactly this set. */
  const Whitespace: set<char> := {
    '\t', '\n', '\U{B}', '\U{C}', '\r', '\U{1C}', '\U{1D}', '\U{1E}', '\U{1F}', ' ',
    '\U{85}', '\U{A0}', '\U{1680}',
    '\U{2000}', '\U{2001}', '\U{2002}', '\U{2003}', '\U{2004}', '\U{2005}',
    '\U{2006}', '\U{2007}', '\U{2008}', '\U{2009}', '\U{200A}',
    '\U{2028}', '\U{2029}', '\U{202F}', '\U{205F}', '\U{3000}'
  }

  /** The whitespace `int()` skips around a number. CPython turns every
      non-ASCII space into `' '` and then skips only the ASCII spaces of C's
      `isspace`, so the separators U+001C to U+001F, which `str.strip()`
      removes, stay in place and make the literal invalid. */
  const IntSpace: set<char> := Whitespace - Separators

  /** The ASCII information separators, white space to `str.isspace` only. */
  const Separators: set<char> := {'\U{1C}', '\U{1D}', '\U{1E}', '\U{1F}'}

  predicate IsSpace(c: char) {
    c in Whitespace
  }

  predicate IsUpper(c: char) {
    'A' <= c <= 'Z'
  }

  predicate IsDigit(c: char) {
    '0' <= c <= '9'
  }

  predicate NoUpper(s: string) {
    forall i | 0 <= i < |s| :: !IsUpper(s[i])
  }

  // ---------------------------------------------------------------------------
  // lower / replace

  function LowerChar(c: char): char {
    if IsUpper(c) then (c as int + 32) as char else c
  }

  /** `s.lower()`, restricted to the ASCII letters. */
  function Lower(s: string): (r: string)
    ensures |r| == |s|
    ensures NoUpper(r)
    ensures forall i | 0 <= i < |s| :: IsSpace(r[i]) <==> IsSpace(s[i])
    ensures forall i | 0 <= i < |s| :: r[i] == s[i] || (IsUpper(s[i]) && r[i] as int == s[i] as int + 32)
  {
    seq(|s|, i requires 0 <= i < |s| => LowerChar(s[i]))
  }

  /** `s.replace(a, b)` for one-character `a` and `b`. */
  function Replace(s: string, a: char, b: char): (r: string)
    ensures |r| == |s|
    ensures a != b ==> a !in r
    ensures forall i | 0 <= i < |s| :: r[i] == (if s[i] == a then b else s[i])
  {
    seq(|s|, i requires 0 <= i < |s| => if s[i] == a then b else s[i])
  }

  /** Lower-casing changes exactly the strings holding an upper-case letter. */
  lemma LowerFixed(s: string)
    ensures Lower(s) == s <==> NoUpper(s)
  {
    if NoUpper(s) {
      assert forall i | 0 <= i < |s| :: Lower(s)[i] == s[i];
    }
  }

  /** `s.startswith(p)`. */
  predicate HasPrefix(s: string, p: string) {
    |p| <= |s| && s[..|p|] == p
  }

  // ---------------------------------------------------------------------------
  // split(sep) and sep.join

  function Count(s: string, c: char): nat {
    if |s| == 0 then 0 else (if s[0] == c then 1 else 0) + Count(s[1..], c)
  }

  /** `s.split(c)`: the maximal `c`-free pieces between the occurrences of `c`,
      empty pieces included; there is always at least one piece. */
  function SplitOn(s: string, c: char): (parts: seq<string>)
    ensures |parts| == Count(s, c) + 1
    ensures forall i | 0 <= i < |parts| :: c !in parts[i]
  {
    if |s| == 0 then [""]
    else
      var rest := SplitOn(s[1..], c);
      if s[0] == c then [""] + rest
      else [[s[0]] + rest[0]] + rest[1..]
  }

  /** `c.join(parts)`. */
  function JoinWith(c: char, parts: seq<string>): string {
    if |parts| == 0 then ""
    else if |parts| == 1 then parts[0]
    else parts[0] + [c] + JoinWith(c, parts[1..])
  }

  /** The texts appended one after another, as a `+=` loop builds them. */
  function Concat(ss: seq<string>): string {
    if |ss| == 0 then ""
    else Concat(ss[..|ss| - 1]) + ss[|ss| - 1]
  }

  /** The concatenation is empty exactly when every text is. */
  lemma {:induction false} ConcatEmpty(ss: seq<string>)
    ensures Concat(ss) == "" <==> forall i | 0 <= i < |ss| :: ss[i] == ""
  {
    if |ss| > 0 {
      var init := ss[..|ss| - 1];
      ConcatEmpty(init);
      assert forall i | 0 <= i < |ss| - 1 :: init[i] == ss[i];
    }
  }

  /** Appending two runs of texts is appending their concatenations. */
  lemma {:induction false} ConcatAppend(a: seq<string>, b: seq<string>)
    ensures Concat(a + b) == Concat(a) + Concat(b)
    decreases |b|
  {
    if |b| == 0 {
      assert a + b == a;
    } else {
      var init := b[..|b| - 1];
      var last := b[|b| - 1];
      assert (a + b)[..|a + b| - 1] == a + init;
      assert (a + b)[|a + b| - 1] == last;
      assert Concat(a + b) == Concat(a + init) + last;
      ConcatAppend(a, init);
      assert Concat(a + b) == (Concat(a) + Concat(init)) + last;
      assert Concat(b) == Concat(init) + last;
    }
  }

  /** Read from the front: the first text comes first. */
  lemma ConcatFront(ss: seq<string>)
    requires |ss| > 0
    ensures Concat(ss) == ss[0] + Concat(ss[1..])
  {
    var one := [ss[0]];
    assert Concat(one) == ss[0] by {
      assert one[..0] == [];
    }
    assert one + ss[1..] == ss by {
      assert ss == [ss[0]] + ss[1..];
    }
    ConcatAppend(one, ss[1..]);
  }

  /** The first piece of `s.split(c)`: everything before the first `c`. */
  function Before(s: string, c: char): string {
    SplitOn(s, c)[0]
  }

  /** The last piece of `s.split(c)`: everything after the last `c`. */
  function LastPiece(s: string, c: char): string {
    var parts := SplitOn(s, c);
    parts[|parts| - 1]
  }

  /** Joining the pieces back with the separator gives the original string. */
  lemma {:induction false} JoinSplit(s: string, c: char)
    ensures JoinWith(c, SplitOn(s, c)) == s
  {
    if |s| == 0 {
    } else {
      var rest := SplitOn(s[1..], c);
      JoinSplit(s[1..], c);
      if s[0] == c {
        assert SplitOn(s, c) == [""] + rest;
        assert ([""] + rest)[1..] == rest;
      } else {
        var parts := SplitOn(s, c);
        assert parts[0] == [s[0]] + rest[0];
        assert parts[1..] == rest[1..];
        if |rest| == 1 {
          assert s == [s[0]] + s[1..];
        } else {
          assert JoinWith(c, rest) == rest[0] + [c] + JoinWith(c, rest[1..]);
          assert s == [s[0]] + s[1..];
        }
      }
    }
  }

  /** Splitting a join of separator-free pieces gives the pieces back. */
  lemma {:induction false} SplitJoin(parts: seq<string>, c: char)
    requires |parts| >= 1
    requires forall i | 0 <= i < |parts| :: c !in parts[i]
    ensures SplitOn(JoinWith(c, parts), c) == parts
  {
    if |parts| == 1 {
      SplitFree(parts[0], c);
    } else {
      SplitJoin(parts[1..], c);
      SplitConcat(parts[0], JoinWith(c, parts[1..]), c);
      SplitFree(parts[0], c);
      assert parts == [parts[0]] + parts[1..];
    }
  }

  /** A separator-free string splits into itself. */
  lemma {:induction false} SplitFree(s: string, c: char)
    requires c !in s
    ensures SplitOn(s, c) == [s]
  {
    if |s| > 0 {
      assert c !in s[1..] by {
        forall i | 0 <= i < |s[1..]| ensures s[1..][i] != c {
          assert s[1..][i] == s[i + 1];
        }
      }
      SplitFree(s[1..], c);
      assert s == [s[0]] + s[1..];
    }
  }

  /** An occurrence of the separator splits the pieces of both sides apart. */
  lemma {:induction false} SplitConcat(a: string, b: string, c: char)
    ensures SplitOn(a + [c] + b, c) == SplitOn(a, c) + SplitOn(b, c)
  {
    if |a| == 0 {
      assert a + [c] + b == [c] + b;
      assert ([c] + b)[1..] == b;
    } else {
      var s := a + [c] + b;
      assert s[0] == a[0];
      assert s[1..] == a[1..] + [c] + b;
      SplitConcat(a[1..], b, c);
    }
  }

  /** The part of `a + [c] + b` before the first `c` is `a` when `a` is `c`-free. */
  lemma BeforeFirst(a: string, b: string, c: char)
    requires c !in a
    ensures Before(a + [c] + b, c) == a
  {
    SplitConcat(a, b, c);
    SplitFree(a, c);
  }

  /** The part of `a + [c] + b` after the last `c` is `b` when `b` is `c`-free. */
  lemma AfterLast(a: string, b: string, c: char)
    requires c !in b
    ensures LastPiece(a + [c] + b, c) == b
  {
    SplitConcat(a, b, c);
    SplitFree(b, c);
  }

  // ---------------------------------------------------------------------------
  // split() on runs of whitespace

  /** The longest prefix of `s` that holds no whitespace. */
  function Word(s: string): (w: string)
    ensures |w| <= |s| && w == s[..|w|]
    ensures forall i | 0 <= i < |w| :: !IsSpace(w[i])
    ensures |w| == |s| || IsSpace(s[|w|])
  {
    if |s| == 0 || IsSpace(s[0]) then ""
    else [s[0]] + Word(s[1..])
  }

  predicate IsToken(w: string) {
    |w| > 0 && forall i | 0 <= i < |w| :: !IsSpace(w[i])
  }

  /** `s.split()`: the maximal runs of non-whitespace characters, in order. */
  function Tokens(s: string): (ts: seq<string>)
    ensures forall i | 0 <= i < |ts| :: IsToken(ts[i])
    decreases |s|
  {
    if |s| == 0 then []
    else if IsSpace(s[0]) then Tokens(s[1..])
    else
      var w := Word(s);
      [w] + Tokens(s[|w|..])
  }

  /** One step of `Tokens` at a leading white-space character. */
  lemma TokensSkip(s: string)
    requires |s| > 0 && IsSpace(s[0])
    ensures Tokens(s) == Tokens(s[1..])
  {
  }

  /** One step of `Tokens` at the start of a word. */
  lemma TokensTake(s: string)
    requires |s| > 0 && !IsSpace(s[0])
    ensures Tokens(s) == [Word(s)] + Tokens(s[|Word(s)|..])
  {
  }

  lemma {:induction false} WordOfToken(w: string, t: string)
    requires forall i | 0 <= i < |w| :: !IsSpace(w[i])
    requires |t| == 0 || IsSpace(t[0])
    ensures Word(w + t) == w
  {
    if |w| == 0 {
    } else {
      assert (w + t)[1..] == w[1..] + t;
      WordOfToken(w[1..], t);
    }
  }

  /** Splitting a single-space join of tokens gives the tokens back. */
  lemma {:induction false} TokensOfJoin(ws: seq<string>)
    requires forall i | 0 <= i < |ws| :: IsToken(ws[i])
    ensures Tokens(JoinWith(' ', ws)) == ws
  {
    if |ws| == 0 {
    } else if |ws| == 1 {
      WordOfToken(ws[0], "");
      assert ws[0] + "" == ws[0];
      assert ws[0][|ws[0]|..] == "";
    } else {
      var rest := JoinWith(' ', ws[1..]);
      var s := ws[0] + [' '] + rest;
      assert s == ws[0] + ([' '] + rest);
      WordOfToken(ws[0], [' '] + rest);
      TokensTake(s);
      assert s[|ws[0]|..] == [' '] + rest;
      TokensSkip([' '] + rest);
      assert ([' '] + rest)[1..] == rest;
      TokensOfJoin(ws[1..]);
      assert ws == [ws[0]] + ws[1..];
    }
  }

  /** A word with no whitespace in it is its own split. */
  lemma TokensOfWord(w: string)
    requires IsToken(w)
    ensures Tokens(w) == [w]
  {
    WordOfToken(w, "");
    assert w + "" == w;
  }

  /** The word at the start of `a + [c] + b` ends inside `a` when `c` is white space. */
  lemma {:induction false} WordBeforeSpace(a: string, c: char, b: string)
    requires IsSpace(c)
    ensures Word(a + [c] + b) == Word(a)
    decreases |a|
  {
    if |a| > 0 && !IsSpace(a[0]) {
      assert (a + [c] + b)[1..] == a[1..] + [c] + b;
      WordBeforeSpace(a[1..], c, b);
    }
  }

  /** Splitting on whitespace splits either side of any white-space character
      separately; with `TokensOfWord` this fixes `Tokens` on every string. */
  lemma {:induction false} TokensAround(a: string, c: char, b: string)
    requires IsSpace(c)
    ensures Tokens(a + [c] + b) == Tokens(a) + Tokens(b)
    decreases |a|
  {
    var s := a + [c] + b;
    if |a| == 0 {
      assert s[1..] == b;
      TokensSkip(s);
    } else if IsSpace(a[0]) {
      assert s[1..] == a[1..] + [c] + b;
      TokensSkip(s);
      TokensSkip(a);
      TokensAround(a[1..], c, b);
    } else {
      var w := Word(s);
      WordBeforeSpace(a, c, b);
      assert s[|w|..] == a[|w|..] + [c] + b;
      TokensTake(s);
      TokensTake(a);
      TokensAround(a[|w|..], c, b);
    }
  }

  function LowerAll(ws: seq<string>): (r: seq<string>)
    ensures |r| == |ws|
    ensures forall i | 0 <= i < |ws| :: r[i] == Lower(ws[i])
  {
    seq(|ws|, i requires 0 <= i < |ws| => Lower(ws[i]))
  }

  lemma {:induction false} WordLower(s: string)
    ensures Word(Lower(s)) == Lower(Word(s))
    decreases |s|
  {
    if |s| > 0 && !IsSpace(s[0]) {
      assert Lower(s)[1..] == Lower(s[1..]);
      WordLower(s[1..]);
      assert Lower(Word(s)) == [LowerChar(s[0])] + Lower(Word(s[1..]));
    }
  }

  /** Lower-casing before or after splitting on whitespace gives the same tokens. */
  lemma {:induction false} TokensLower(s: string)
    ensures Tokens(Lower(s)) == LowerAll(Tokens(s))
    decreases |s|
  {
    if |s| == 0 {
    } else if IsSpace(s[0]) {
      assert Lower(s)[1..] == Lower(s[1..]);
      TokensSkip(s);
      TokensSkip(Lower(s));
      TokensLower(s[1..]);
    } else {
      var w := Word(s);
      var rest := s[|w|..];
      TokensTake(s);
      WordLower(s);
      assert !IsSpace(Lower(s)[0]);
      TokensTake(Lower(s));
      assert Lower(s)[|w|..] == Lower(rest);
      TokensLower(rest);
      LowerAllCons(w, Tokens(rest));
    }
  }

  lemma LowerAllCons(w: string, ts: seq<string>)
    ensures LowerAll([w] + ts) == [Lower(w)] + LowerAll(ts)
  {
  }

  // ---------------------------------------------------------------------------
  // strip

  /** How many leading characters of `s` belong to `cs`. */
  function LeadIn(s: string, cs: set<char>): (n: nat)
    ensures n <= |s|
    ensures forall i | 0 <= i < n :: s[i] in cs
    ensures n == |s| || s[n] !in cs
  {
    if |s| > 0 && s[0] in cs then 1 + LeadIn(s[1..], cs) else 0
  }

  /** How many trailing characters of `s` belong to `cs`. */
  function TrailIn(s: string, cs: set<char>): (n: nat)
    ensures n <= |s|
    ensures forall i | |s| - n <= i < |s| :: s[i] in cs
    ensures n == |s| || s[|s| - 1 - n] !in cs
  {
    if |s| > 0 && s[|s| - 1] in cs then 1 + TrailIn(s[..|s| - 1], cs) else 0
  }

  /** `s.strip(chars)` where `cs` is the set of characters of `chars`. */
  function StripSet(s: string, cs: set<char>): (r: string)
    ensures |r| <= |s|
    ensures r == [] || (r[0] !in cs && r[|r| - 1] !in cs)
    ensures LeadIn(s, cs) + |r| <= |s| && r == s[LeadIn(s, cs)..LeadIn(s, cs) + |r|]
    ensures forall k | LeadIn(s, cs) + |r| <= k < |s| :: s[k] in cs
  {
    var t := s[LeadIn(s, cs)..];
    t[..|t| - TrailIn(t, cs)]
  }

  /** `s.strip()`. */
  function Strip(s: string): string {
    StripSet(s, Whitespace)
  }

  /** The strip is empty exactly when every character is to be stripped. */
  lemma StripSetEmpty(s: string, cs: set<char>)
    ensures StripSet(s, cs) == [] <==> forall k | 0 <= k < |s| :: s[k] in cs
  {
    var i := LeadIn(s, cs);
    var t := s[i..];
    if i < |s| {
      assert t[0] !in cs;
      assert TrailIn(t, cs) < |t|;
    }
  }

  /** A string with nothing to strip at either end is unchanged. */
  lemma StripSetNoop(s: string, cs: set<char>)
    requires s == [] || (s[0] !in cs && s[|s| - 1] !in cs)
    ensures StripSet(s, cs) == s
  {
  }

  // ---------------------------------------------------------------------------
  // int() on a decimal string

  /** Digits with single underscores between them, as Python's `int()` accepts. */
  predicate DecimalBody(b: string) {
    && |b| > 0
    && IsDigit(b[0])
    && forall i | 0 <= i < |b| :: IsDigit(b[i]) || (b[i] == '_' && i + 1 < |b| && IsDigit(b[i + 1]))
  }

  /** The value of a digit string, underscores ignored. */
  function DigitsValue(b: string): nat {
    if |b| == 0 then 0
    else if IsDigit(b[|b| - 1]) then 10 * DigitsValue(b[..|b| - 1]) + (b[|b| - 1] as int - '0' as int)
    else DigitsValue(b[..|b| - 1])
  }

  /** `int(s)` in base 10: surrounding `IntSpace`, an optional sign, then digits. */
  function ParseInt(s: string): (r: Option<int>)
    ensures r.Some? ==> |Strip(s)| > 0
    ensures r.Some? ==> forall k | 0 <= k < |s| :: s[k] !in Separators
  {
    var t := StripSet(s, IntSpace);
    var negative := |t| > 0 && t[0] == '-';
    var body := if |t| > 0 && (t[0] == '-' || t[0] == '+') then t[1..] else t;
    var magnitude: int := DigitsValue(body);
    if DecimalBody(body) then
      NumberText(s, t, body);
      Some(if negative then -magnitude else magnitude)
    else None
  }

  /** A string whose `int()` strip leaves a sign and digits has a digit that
      `strip()` keeps, and holds no separator. */
  lemma NumberText(s: string, t: string, body: string)
    requires t == StripSet(s, IntSpace)
    requires body == if |t| > 0 && (t[0] == '-' || t[0] == '+') then t[1..] else t
    requires DecimalBody(body)
    ensures |Strip(s)| > 0
    ensures forall k | 0 <= k < |s| :: s[k] !in Separators
  {
    var i := LeadIn(s, IntSpace);
    SignedDigits(t, body);
    forall k | 0 <= k < |s| ensures s[k] !in Separators {
      if i <= k < i + |t| {
        assert s[k] == t[k - i];
      }
    }
    var d := |t| - |body|;
    assert s[i + d] == t[d];
    DigitIsNotSpace(t[d]);
    StripSetEmpty(s, Whitespace);
  }

  /** A sign followed by digits and underscores holds no separator. */
  lemma SignedDigits(t: string, body: string)
    requires body == if |t| > 0 && (t[0] == '-' || t[0] == '+') then t[1..] else t
    requires DecimalBody(body)
    ensures forall j | 0 <= j < |t| :: t[j] !in Separators
    ensures |body| <= |t| && IsDigit(t[|t| - |body|])
  {
    var d := |t| - |body|;
    forall j | 0 <= j < |t| ensures t[j] !in Separators {
      if j >= d {
        assert t[j] == body[j - d];
      }
    }
  }

  /** The decimal rendering of `n`, as `str(n)` gives it. */
  function ShowNat(n: nat): (r: string)
    ensures |r| > 0
    ensures forall i | 0 <= i < |r| :: IsDigit(r[i])
  {
    if n < 10 then [('0' as int + n) as char]
    else ShowNat(n / 10) + [('0' as int + n % 10) as char]
  }

  lemma {:induction false} ShowNatValue(n: nat)
    ensures DigitsValue(ShowNat(n)) == n
  {
    if n >= 10 {
      var r := ShowNat(n);
      assert r[..|r| - 1] == ShowNat(n / 10);
      ShowNatValue(n / 10);
    }
  }

  /** A non-empty run of printable ASCII characters other than the space is a token. */
  lemma PrintableToken(w: string)
    requires |w| > 0 && forall i | 0 <= i < |w| :: '!' <= w[i] <= '~'
    ensures IsToken(w)
  {
  }

  lemma DigitIsNotSpace(c: char)
    requires IsDigit(c)
    ensures !IsSpace(c)
  {
  }

  /** `int(str(n)) == n`. */
  lemma ParseShowNat(n: nat)
    ensures ParseInt(ShowNat(n)) == Some(n)
  {
    var r := ShowNat(n);
    DigitIsNotSpace(r[0]);
    DigitIsNotSpace(r[|r| - 1]);
    StripSetNoop(r, IntSpace);
    assert r[0] != '-' && r[0] != '+';
    assert DecimalBody(r);
    ShowNatValue(n);
  }
}
