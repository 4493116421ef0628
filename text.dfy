/**
 * String helpers with the exact semantics of the JavaScript and Python library calls
 * that the IDE uses: `lastIndexOf`, `slice`, `startsWith`/`endsWith`, `trim`/`strip`,
 * `split(/\s+/).filter(Boolean)` / `split()`, `join` and `toLowerCase` (as far as it is
 * compared with ASCII table keys).
 */
module Text {

  predicate StartsWith(s: string, prefix: string) {
    |prefix| <= |s| && s[..|prefix|] == prefix
  }

  predicate EndsWith(s: string, suffix: string) {
    |suffix| <= |s| && s[|s| - |suffix|..] == suffix
  }

  /** `s.lastIndexOf(c)`: the last position holding `c`, or -1. */
  function LastIndexOf(s: string, c: char): (i: int)
    ensures -1 <= i < |s|
    ensures i >= 0 ==> s[i] == c
    ensures forall j :: i < j < |s| ==> s[j] != c
    ensures i == -1 <==> c !in s
  {
    if s == [] then -1
    else if s[|s| - 1] == c then |s| - 1
    else LastIndexOf(s[..|s| - 1], c)
  }

  /** The index `String.prototype.slice` uses for a (possibly negative) bound. */
  function SliceIndex(len: nat, k: int): (r: nat)
    ensures r <= len
    ensures 0 <= k <= len ==> r == k
  {
    if k < 0 then (if len + k < 0 then 0 else len + k)
    else if k > len then len
    else k
  }

  /** `s.slice(start)`. */
  function SliceFrom(s: string, start: int): string {
    s[SliceIndex(|s|, start)..]
  }

  /** `s.slice(start, end)`: empty when the clamped end precedes the clamped start. */
  function Slice<T>(s: seq<T>, start: int, end: int): seq<T> {
    var a := SliceIndex(|s|, start);
    var b := SliceIndex(|s|, end);
    if a <= b then s[a..b] else []
  }

  /** The characters of the JavaScript `\s` class; `String.prototype.trim` removes exactly these. */
  const JsSpace: set<char> :=
    {'\t', '\n', '\U{000B}', '\U{000C}', '\r', ' ', '\U{00A0}', '\U{1680}',
     '\U{2000}', '\U{2001}', '\U{2002}', '\U{2003}', '\U{2004}', '\U{2005}',
     '\U{2006}', '\U{2007}', '\U{2008}', '\U{2009}', '\U{200A}',
     '\U{2028}', '\U{2029}', '\U{202F}', '\U{205F}', '\U{3000}', '\U{FEFF}'}

  /** The characters Python's `str.split()` and `str.strip()` treat as whitespace. */
  const PySpace: set<char> :=
    {'\t', '\n', '\U{000B}', '\U{000C}', '\r', '\U{001C}', '\U{001D}', '\U{001E}',
     '\U{001F}', ' ', '\U{0085}', '\U{00A0}', '\U{1680}',
     '\U{2000}', '\U{2001}', '\U{2002}', '\U{2003}', '\U{2004}', '\U{2005}',
     '\U{2006}', '\U{2007}', '\U{2008}', '\U{2009}', '\U{200A}',
     '\U{2028}', '\U{2029}', '\U{202F}', '\U{205F}', '\U{3000}'}

  predicate NoneIn(s: string, ws: set<char>) {
    forall i :: 0 <= i < |s| ==> s[i] !in ws
  }

  /** Every character of `s` is in `ws`. */
  predicate AllIn(s: string, ws: set<char>) {
    forall i :: 0 <= i < |s| ==> s[i] in ws
  }

  /** The longest prefix of `s` without a character of `ws`. */
  function Token(s: string, ws: set<char>): (t: string)
    ensures |t| <= |s| && t == s[..|t|]
    ensures NoneIn(t, ws)
    ensures |t| < |s| ==> s[|t|] in ws
  {
    if s == [] || s[0] in ws then [] else [s[0]] + Token(s[1..], ws)
  }

  /**
   * The maximal runs of characters outside `ws`, in order: `s.split(/\s+/).filter(Boolean)`
   * with `ws == JsSpace`, and Python's `s.split()` with `ws == PySpace`.
   */
  function Words(s: string, ws: set<char>): (r: seq<string>)
    decreases |s|
  {
    if s == [] then []
    else if s[0] in ws then Words(s[1..], ws)
    else
      var t := Token(s, ws);
      [t] + Words(s[|t|..], ws)
  }

  /** A token stops only at a character of `ws`: a string free of them is its own token. */
  lemma {:induction false} WholeToken(s: string, ws: set<char>)
    requires NoneIn(s, ws)
    ensures Token(s, ws) == s
    decreases |s|
  {
    if s != [] {
      assert NoneIn(s[1..], ws) by { assert forall i :: 0 <= i < |s| - 1 ==> s[1..][i] == s[i + 1]; }
      WholeToken(s[1..], ws);
    }
  }

  /** A non-empty string free of `ws` splits into itself alone. */
  lemma SingleWord(s: string, ws: set<char>)
    requires s != [] && NoneIn(s, ws)
    ensures Words(s, ws) == [s]
  {
    assert s[0] !in ws;
    WholeToken(s, ws);
    assert s[|s|..] == [];
  }

  /** A sequence of words as `Words` produces them: non-empty and free of `ws`. */
  predicate AreWords(w: seq<string>, ws: set<char>) {
    forall i :: 0 <= i < |w| ==> w[i] != [] && NoneIn(w[i], ws)
  }

  lemma {:induction false} WordsAreWords(s: string, ws: set<char>)
    ensures AreWords(Words(s, ws), ws)
    decreases |s|
  {
    if s == [] {
    } else if s[0] in ws {
      WordsAreWords(s[1..], ws);
    } else {
      var t := Token(s, ws);
      WordsAreWords(s[|t|..], ws);
    }
  }

  /** Every character outside `ws` lands in some word; whitespace-only strings have none. */
  lemma {:induction false} WordsEmptyIff(s: string, ws: set<char>)
    ensures Words(s, ws) == [] <==> (forall i :: 0 <= i < |s| ==> s[i] in ws)
    decreases |s|
  {
    if s != [] && s[0] in ws {
      WordsEmptyIff(s[1..], ws);
      assert forall i :: 1 <= i < |s| ==> s[i] == s[1..][i - 1];
    }
  }

  function JoinWith(parts: seq<string>, sep: string): string {
    if parts == [] then ""
    else if |parts| == 1 then parts[0]
    else parts[0] + sep + JoinWith(parts[1..], sep)
  }

  lemma TokenOfWordThenSpace(w: string, rest: string, ws: set<char>)
    requires w != [] && NoneIn(w, ws)
    requires rest == [] || rest[0] in ws
    ensures Token(w + rest, ws) == w
    decreases |w|
  {
    if |w| > 1 {
      assert (w + rest)[1..] == w[1..] + rest;
      TokenOfWordThenSpace(w[1..], rest, ws);
    } else {
      assert (w + rest)[1..] == rest;
    }
  }

  /** Splitting undoes joining with one separator character: the round trip behind argument lists. */
  lemma {:induction false} WordsOfJoin(w: seq<string>, sp: char, ws: set<char>)
    requires sp in ws && AreWords(w, ws)
    ensures Words(JoinWith(w, [sp]), ws) == w
  {
    if |w| == 1 {
      TokenOfWordThenSpace(w[0], [], ws);
      assert w[0] + [] == w[0];
      assert w[0][|w[0]|..] == [];
    } else if |w| > 1 {
      var rest := [sp] + JoinWith(w[1..], [sp]);
      var s := w[0] + [sp] + JoinWith(w[1..], [sp]);
      assert s == w[0] + rest;
      TokenOfWordThenSpace(w[0], rest, ws);
      assert s[|w[0]|..] == rest;
      assert rest[1..] == JoinWith(w[1..], [sp]);
      WordsOfJoin(w[1..], sp, ws);
    }
  }

  function TrimStart(s: string, ws: set<char>): string {
    if s != [] && s[0] in ws then TrimStart(s[1..], ws) else s
  }

  function TrimEnd(s: string, ws: set<char>): string {
    if s != [] && s[|s| - 1] in ws then TrimEnd(s[..|s| - 1], ws) else s
  }

  /** `s.trim()` with `JsSpace`, Python's `s.strip()` with `PySpace`. */
  function Trim(s: string, ws: set<char>): string {
    TrimEnd(TrimStart(s, ws), ws)
  }

  /** Trimming the start removes the longest prefix of blanks: what is left is a suffix that does not begin with a blank. */
  lemma {:induction false} TrimStartShape(s: string, ws: set<char>)
    ensures var r := TrimStart(s, ws);
      |r| <= |s| && r == s[|s| - |r|..] && AllIn(s[..|s| - |r|], ws) && (r != [] ==> r[0] !in ws)
    decreases |s|
  {
    if s != [] && s[0] in ws {
      TrimStartShape(s[1..], ws);
      var r := TrimStart(s, ws);
      var d := |s| - |r|;
      assert s[1..][..|s[1..]| - |r|] == s[1..d];
      forall i | 0 <= i < d ensures s[..d][i] in ws {
        if i > 0 {
          assert s[..d][i] == s[1..d][i - 1];
        }
      }
    }
  }

  /** Trimming the end removes the longest suffix of blanks: what is left is a prefix that does not end with a blank. */
  lemma {:induction false} TrimEndShape(s: string, ws: set<char>)
    ensures var r := TrimEnd(s, ws);
      |r| <= |s| && r == s[..|r|] && AllIn(s[|r|..], ws) && (r != [] ==> r[|r| - 1] !in ws)
    decreases |s|
  {
    if s != [] && s[|s| - 1] in ws {
      var t := s[..|s| - 1];
      TrimEndShape(t, ws);
      var r := TrimEnd(s, ws);
      assert t[..|r|] == s[..|r|];
      forall i | |r| <= i < |s| ensures s[i] in ws {
        if i < |s| - 1 {
          assert t[|r|..][i - |r|] == s[i];
        }
      }
      assert forall i :: 0 <= i < |s[|r|..]| ==> s[|r|..][i] == s[|r| + i];
    }
  }

  /**
   * Trimming both ends leaves the infix `s[i..j]` between a prefix and a suffix of blanks; it
   * begins and ends with a character outside `ws`, and it is empty exactly when `s` is all blanks.
   */
  lemma TrimShape(s: string, ws: set<char>)
    ensures var r := Trim(s, ws);
      var i := |s| - |TrimStart(s, ws)|;
      && 0 <= i <= i + |r| <= |s|
      && r == s[i..i + |r|]
      && AllIn(s[..i], ws) && AllIn(s[i + |r|..], ws)
      && (r != [] ==> r[0] !in ws && r[|r| - 1] !in ws)
      && (r == [] <==> AllIn(s, ws))
  {
    TrimStartShape(s, ws);
    var t := TrimStart(s, ws);
    TrimEndShape(t, ws);
    var r := TrimEnd(t, ws);
    var i := |s| - |t|;
    assert t == s[i..];
    assert r == s[i..i + |r|];
    assert t[|r|..] == s[i + |r|..];
    if r != [] {
      assert r[0] == t[0];
      assert s[i] == r[0];
    } else {
      assert t[|r|..] == t;
      assert |t| == 0;
      assert s[..i] == s;
    }
  }

  /**
   * The lower-case form used for table lookups. JavaScript's `toLowerCase` maps A-Z to a-z
   * and the Kelvin sign U+212A to an ASCII 'k'; every other character either stays
   * itself or becomes non-ASCII text, so comparing with an ASCII key gives the same answer.
   */
  function LowerChar(c: char): char {
    if 'A' <= c <= 'Z' then (c as int + 32) as char
    else if c == '\U{212A}' then 'k'
    else c
  }

  function Lower(s: string): (r: string)
    ensures |r| == |s|
    ensures forall i :: 0 <= i < |s| ==> r[i] == LowerChar(s[i])
  {
    if s == [] then [] else [LowerChar(s[0])] + Lower(s[1..])
  }

  /** Lowering commutes with taking a suffix, so `s.slice(k).toLowerCase()` equals `s.toLowerCase().slice(k)`. */
  lemma LowerSuffix(s: string, k: nat)
    requires k <= |s|
    ensures Lower(s[k..]) == Lower(s)[k..]
  {
  }

  lemma {:induction false} LastIndexOfLower(s: string)
    ensures LastIndexOf(Lower(s), '.') == LastIndexOf(s, '.')
  {
    if s != [] {
      var t := s[..|s| - 1];
      assert Lower(s)[..|s| - 1] == Lower(t);
      LastIndexOfLower(t);
    }
  }

  lemma LowerIdempotent(s: string)
    ensures Lower(Lower(s)) == Lower(s)
  {
  }

  lemma {:induction false} LastIndexOfAppend(stem: string, ext: string, c: char)
    requires ext != [] && ext[0] == c && c !in ext[1..]
    ensures LastIndexOf(stem + ext, c) == |stem|
    decreases |ext|
  {
    var s := stem + ext;
    if |ext| == 1 {
      assert s[|s| - 1] == c;
    } else {
      assert s[|s| - 1] == ext[|ext| - 1] && ext[|ext| - 1] in ext[1..];
      assert s[..|s| - 1] == stem + ext[..|ext| - 1];
      assert ext[..|ext| - 1][1..] == ext[1..][..|ext| - 2];
      LastIndexOfAppend(stem, ext[..|ext| - 1], c);
    }
  }

  /** `String(n)` for an integer: decimal digits, with a leading '-' when negative. */
  function Decimal(n: int): (r: string)
    ensures r != []
    decreases if n < 0 then 1 - n else n
  {
    if n < 0 then "-" + Decimal(-n)
    else if n < 10 then [Digit(n)]
    else Decimal(n / 10) + [Digit(n % 10)]
  }

  function Digit(d: int): char
    requires 0 <= d < 10
  {
    ['0', '1', '2', '3', '4', '5', '6', '7', '8', '9'][d]
  }
  /** The value of a decimal digit; `Digit` written backwards. */
  function DigitValue(c: char): int {
    if '0' <= c <= '9' then c as int - '0' as int else 0
  }

  /** The value of a string of decimal digits. */
  function DecimalValue(s: string): int {
    if s == [] then 0 else 10 * DecimalValue(s[..|s| - 1]) + DigitValue(s[|s| - 1])
  }

  /** Reading back what `Decimal` writes. */
  function ParseDecimal(s: string): int {
    if |s| > 0 && s[0] == '-' then -DecimalValue(s[1..]) else DecimalValue(s)
  }

  lemma {:induction false} NaturalRoundTrip(n: nat)
    ensures DecimalValue(Decimal(n)) == n && Decimal(n)[0] != '-'
    decreases n
  {
    if n >= 10 {
      NaturalRoundTrip(n / 10);
      var d := Decimal(n / 10) + [Digit(n % 10)];
      assert d[..|d| - 1] == Decimal(n / 10);
      assert DigitValue(Digit(n % 10)) == n % 10;
    } else {
      var d := [Digit(n)];
      assert d[..0] == [];
      assert DigitValue(Digit(n)) == n;
    }
  }

  /** `Decimal` loses nothing: parsing it gives the number back, so distinct numbers print differently. */
  lemma DecimalRoundTrip(n: int)
    ensures ParseDecimal(Decimal(n)) == n
  {
    if n < 0 {
      NegativeRoundTrip(n);
    } else {
      NaturalRoundTrip(n);
      var s := Decimal(n);
      assert s[0] != '-';
      assert ParseDecimal(s) == DecimalValue(s);
    }
  }

  lemma NegativeRoundTrip(n: int)
    requires n < 0
    ensures ParseDecimal(Decimal(n)) == n
  {
    var m: nat := -n;
    NaturalRoundTrip(m);
    var s := Decimal(n);
    assert s == "-" + Decimal(m);
    assert s[0] == '-' && s[1..] == Decimal(m);
    assert ParseDecimal(s) == -DecimalValue(Decimal(m));
  }
}
