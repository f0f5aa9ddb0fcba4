/** The pieces of JavaScript value semantics that the API's decisions depend on:
    absent/null/present body fields, truthiness, `||` defaulting, `String.prototype.trim`,
    `split(' ')`, UTF-16 `length`, `startsWith`, `includes` and the decimal rendering of
    an integer inside a template literal. */
module Js {

  datatype Option<+T> = None | Some(value: T)

  /** The result of a call that either returns a value or throws an `Error` with a message. */
  datatype Outcome<+T> = Returned(value: T) | Threw(message: string)

  /** A field of a parsed JSON request body: absent (`undefined`), explicitly `null`, or present. */
  datatype Field<+T> = Missing | Null | Present(value: T)

  /** Points in time, as the database and the token library see them; treated as opaque numbers. */
  type Timestamp = int

  /** `!!f` for a string-valued field: `undefined`, `null` and `""` are falsy. */
  predicate Truthy(f: Field<string>) {
    f.Present? && f.value != ""
  }

  /** `process.env[key] || fallback`: an unset or empty variable gives the fallback. */
  function EnvOr(env: map<string, string>, key: string, fallback: string): (r: string)
    ensures key in env && env[key] != "" ==> r == env[key]
    ensures (key !in env || env[key] == "") ==> r == fallback
  {
    if key in env && env[key] != "" then env[key] else fallback
  }

  predicate StartsWith(s: string, prefix: string) {
    |prefix| <= |s| && s[..|prefix|] == prefix
  }

  /** `s.includes(part)`. */
  predicate Includes(s: string, part: string) {
    exists i | 0 <= i <= |s| - |part| :: OccursAt(s, part, i)
  }

  predicate OccursAt(s: string, part: string, i: int) {
    0 <= i <= |s| - |part| && s[i..i + |part|] == part
  }

  // ---------------------------------------------------------------------------
  // trim()

  /** The characters `String.prototype.trim` removes: ECMAScript WhiteSpace and LineTerminator. */
  predicate IsWhiteSpace(c: char) {
    || c == '\t' || c == '\n' || c == '\U{000B}' || c == '\U{000C}' || c == '\r' || c == ' '
    || c == '\U{00A0}' || c == '\U{1680}' || ('\U{2000}' <= c <= '\U{200A}')
    || c == '\U{2028}' || c == '\U{2029}' || c == '\U{202F}' || c == '\U{205F}'
    || c == '\U{3000}' || c == '\U{FEFF}'
  }

  /** Every character of `s` is white space (the empty string included). */
  predicate Blank(s: string) {
    forall i | 0 <= i < |s| :: IsWhiteSpace(s[i])
  }

  /** Removes leading white space. */
  function TrimStart(s: string): string {
    if s != [] && IsWhiteSpace(s[0]) then TrimStart(s[1..]) else s
  }

  /** The result of `TrimStart` is the suffix of `s` after its longest blank prefix. */
  lemma {:induction false} TrimStartRemovesBlankPrefix(s: string)
    ensures var r := TrimStart(s);
            && |r| <= |s| && r == s[|s| - |r|..]
            && Blank(s[..|s| - |r|])
            && (r == [] || !IsWhiteSpace(r[0]))
  {
    if s != [] && IsWhiteSpace(s[0]) {
      TrimStartRemovesBlankPrefix(s[1..]);
      var r := TrimStart(s);
      var k := |s| - |r|;
      assert r == TrimStart(s[1..]);
      assert s[1..][k - 1..] == s[k..];
      assert s[..k] == [s[0]] + s[1..][..k - 1];
    }
  }

  /** Removes trailing white space. */
  function TrimEnd(s: string): string {
    if s != [] && IsWhiteSpace(s[|s| - 1]) then TrimEnd(s[..|s| - 1]) else s
  }

  /** The result of `TrimEnd` is the prefix of `s` before its longest blank suffix. */
  lemma {:induction false} TrimEndRemovesBlankSuffix(s: string)
    ensures var r := TrimEnd(s);
            && |r| <= |s| && r == s[..|r|]
            && Blank(s[|r|..])
            && (r == [] || !IsWhiteSpace(r[|r| - 1]))
  {
    if s != [] && IsWhiteSpace(s[|s| - 1]) {
      TrimEndRemovesBlankSuffix(s[..|s| - 1]);
      var r := TrimEnd(s);
      assert s[..|s| - 1][..|r|] == s[..|r|];
      assert forall i | |r| <= i < |s| - 1 :: s[i] == s[..|s| - 1][i];
    }
  }

  function Trim(s: string): string {
    TrimEnd(TrimStart(s))
  }

  /** `s.trim() === ''` holds exactly for the blank strings. */
  lemma TrimEmptyIffBlank(s: string)
    ensures Trim(s) == "" <==> Blank(s)
  {
    TrimStartRemovesBlankPrefix(s);
    var t := TrimStart(s);
    TrimEndRemovesBlankSuffix(t);
    var k := |s| - |t|;
    if Trim(s) == "" {
      assert t[0..] == t;
      assert t == [];
      assert s[..k] == s;
    }
  }

  // ---------------------------------------------------------------------------
  // length

  /** `s.length`: JavaScript counts UTF-16 code units, two for a character outside the BMP. */
  function Utf16Length(s: string): (n: nat)
    ensures |s| <= n <= 2 * |s|
  {
    if s == [] then 0 else (if s[0] as int > 0xFFFF then 2 else 1) + Utf16Length(s[1..])
  }

  lemma {:induction false} Utf16LengthOfBmp(s: string)
    requires forall i | 0 <= i < |s| :: s[i] as int <= 0xFFFF
    ensures Utf16Length(s) == |s|
  {
    if s != [] {
      Utf16LengthOfBmp(s[1..]);
    }
  }

  // ---------------------------------------------------------------------------
  // split(' ')

  /** Glues pieces back together with one space between neighbours. */
  function JoinWithSpace(pieces: seq<string>): string
    requires |pieces| >= 1
  {
    if |pieces| == 1 then pieces[0] else pieces[0] + " " + JoinWithSpace(pieces[1..])
  }

  /** `s.split(' ')`: the maximal space-free runs of `s`, empty runs included. */
  function SplitOnSpace(s: string): (pieces: seq<string>)
    ensures |pieces| >= 1
  {
    if s == [] then [""]
    else
      var rest := SplitOnSpace(s[1..]);
      if s[0] == ' ' then [""] + rest else [[s[0]] + rest[0]] + rest[1..]
  }

  /** No piece of `split(' ')` holds a space, and joining the pieces with spaces gives back the input. */
  lemma {:induction false} SplitOnSpaceJoins(s: string)
    ensures forall i | 0 <= i < |SplitOnSpace(s)| :: ' ' !in SplitOnSpace(s)[i]
    ensures JoinWithSpace(SplitOnSpace(s)) == s
  {
    if s != [] {
      var rest := SplitOnSpace(s[1..]);
      SplitOnSpaceJoins(s[1..]);
      var pieces := SplitOnSpace(s);
      if s[0] == ' ' {
        assert pieces[1..] == rest;
        assert forall i | 1 <= i < |pieces| :: pieces[i] == rest[i - 1];
      } else {
        assert |rest| > 1 ==> pieces[1..] == rest[1..];
        assert forall i | 1 <= i < |pieces| :: pieces[i] == rest[i];
        assert forall c | c in pieces[0] :: c == s[0] || c in rest[0];
      }
    }
  }

  /** A space-free word followed by a space is split off as the first piece. */
  lemma {:induction false} SplitAfterWord(word: string, rest: string)
    requires ' ' !in word
    ensures SplitOnSpace(word + " " + rest) == [word] + SplitOnSpace(rest)
  {
    if word == [] {
      assert word + " " + rest == [' '] + rest;
      assert (word + " " + rest)[1..] == rest;
    } else {
      SplitAfterWord(word[1..], rest);
      assert (word + " " + rest)[1..] == word[1..] + " " + rest;
      assert [word[0]] + word[1..] == word;
    }
  }

  /** The first piece is the longest space-free prefix: it is followed by a space or by nothing. */
  lemma SplitFirstPiece(s: string)
    ensures StartsWith(s, SplitOnSpace(s)[0])
    ensures |SplitOnSpace(s)[0]| == |s| || s[|SplitOnSpace(s)[0]|] == ' '
  {
    var pieces := SplitOnSpace(s);
    SplitOnSpaceJoins(s);
    if |pieces| > 1 {
      assert s == pieces[0] + " " + JoinWithSpace(pieces[1..]);
      assert s[..|pieces[0]|] == pieces[0];
    }
  }

  /** A string without spaces splits into itself alone. */
  lemma {:induction false} SplitWithoutSpace(s: string)
    requires ' ' !in s
    ensures SplitOnSpace(s) == [s]
  {
    if s != [] {
      assert s[0] in s;
      assert forall c | c in s[1..] :: c in s;
      SplitWithoutSpace(s[1..]);
      assert [s[0]] + s[1..] == s;
    }
  }

  // ---------------------------------------------------------------------------
  // `${n}` for integers

  function DigitChar(d: nat): (c: char)
    requires d < 10
    ensures '0' <= c <= '9'
  {
    "0123456789"[d]
  }

  function NatToDecimal(n: nat): (s: string)
    ensures |s| >= 1
  {
    if n < 10 then [DigitChar(n)] else NatToDecimal(n / 10) + [DigitChar(n % 10)]
  }

  /** The decimal rendering of an integer, with a leading `-` when it is negative. */
  function IntToDecimal(n: int): string {
    if n < 0 then "-" + NatToDecimal(-n) else NatToDecimal(n)
  }

  /** The most significant decimal digit of `n`. */
  function LeadingDigit(n: nat): (d: nat)
    ensures d < 10
    ensures n >= 10 ==> d >= 1
  {
    if n < 10 then n else LeadingDigit(n / 10)
  }

  lemma {:induction false} NatToDecimalHead(n: nat)
    ensures NatToDecimal(n)[0] == DigitChar(LeadingDigit(n))
  {
    if n >= 10 {
      NatToDecimalHead(n / 10);
    }
  }

  /** `${n}` begins with the digit `d` exactly when `n` is non-negative and `d` is its leading digit. */
  lemma IntToDecimalStartsWithDigit(n: int, d: nat)
    requires d < 10
    ensures StartsWith(IntToDecimal(n), [DigitChar(d)]) <==> n >= 0 && LeadingDigit(n) == d
  {
    if n >= 0 {
      NatToDecimalHead(n);
      assert IntToDecimal(n)[..1] == [IntToDecimal(n)[0]];
    } else {
      assert IntToDecimal(n)[0] == '-';
      assert IntToDecimal(n)[..1] == ['-'];
    }
  }

  /** Integers whose leading digit is `d`: for three-digit codes, `d00` to `d99`. */
  lemma LeadingDigitOfThreeDigits(n: nat)
    requires 100 <= n < 1000
    ensures LeadingDigit(n) == n / 100
  {
    assert LeadingDigit(n) == LeadingDigit(n / 10);
    assert LeadingDigit(n / 10) == LeadingDigit(n / 10 / 10);
    assert n / 10 / 10 == n / 100;
  }
}
