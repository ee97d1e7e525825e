/** Text helpers of the control socket: decimal numbers, tokens between semicolons,
    trimming and upper case. Characters stand for octets. */
module IpcText {
  import opened Wrappers

  const MAX_U64: nat := 0xFFFF_FFFF_FFFF_FFFF

  // ---- Decimal numbers ------------------------------------------------------

  predicate IsDigit(c: char) {
    '0' <= c <= '9'
  }

  function Digit(d: nat): (c: char)
    requires d < 10
    ensures IsDigit(c) && Value(c) == d
  {
    ('0' as int + d) as char
  }

  function Dec(n: nat): (s: string)
    ensures s != "" && forall i :: 0 <= i < |s| ==> IsDigit(s[i])
  {
    if n < 10 then [Digit(n)] else Dec(n / 10) + [Digit(n % 10)]
  }

  function Number(s: string): nat
    requires forall i :: 0 <= i < |s| ==> IsDigit(s[i])
  {
    if s == "" then 0 else 10 * Number(s[..|s| - 1]) + Value(s[|s| - 1])
  }

  function Value(c: char): nat
    requires IsDigit(c)
  {
    c as int - '0' as int
  }

  lemma {:induction false} NumberOfDec(n: nat)
    ensures Number(Dec(n)) == n
  {
    if n >= 10 {
      NumberOfDec(n / 10);
      assert Dec(n)[..|Dec(n)| - 1] == Dec(n / 10);
    }
  }

  function PowerOfTen(k: nat): nat {
    if k == 0 then 1 else 10 * PowerOfTen(k - 1)
  }

  lemma {:induction false} DigitCount(n: nat, k: nat)
    requires PowerOfTen(k) <= n < PowerOfTen(k + 1)
    ensures |Dec(n)| == k + 1
  {
    if k == 0 {
      assert PowerOfTen(1) == 10;
    } else {
      DigitCount(n / 10, k - 1);
    }
  }

  /** The length of the leading run of digits. */
  function DigitsIn(s: string): (n: nat)
    ensures n <= |s| && forall i :: 0 <= i < n ==> IsDigit(s[i])
    ensures n < |s| ==> !IsDigit(s[n])
  {
    if s == "" || !IsDigit(s[0]) then 0 else 1 + DigitsIn(s[1..])
  }

  predicate IsSpace(c: char) {
    c == ' ' || ('\t' <= c <= '\r')
  }

  lemma SpaceCodes(c: char)
    ensures IsSpace(c) <==> c as int in [9, 10, 11, 12, 13, 32]
  {
  }

  function SkipSpaces(s: string): string {
    if s != "" && IsSpace(s[0]) then SkipSpaces(s[1..]) else s
  }

  /** The text as a C string: up to the first NUL. */
  function CString(s: string): (r: string)
    ensures r <= s && '\0' !in r && (r == s || s[|r|] == '\0')
  {
    if s == "" || s[0] == '\0' then "" else [s[0]] + CString(s[1..])
  }

  /** strtoull in base 10 on the whole text, with the caller's checks: no range error and
      nothing left over. Without any digit nothing is consumed, so only the empty text
      passes, as 0; a minus sign negates modulo two to the 64. */
  function ReadReq(text: string): (r: Option<nat>)
    ensures r.Some? ==> r.value <= MAX_U64
  {
    var s := CString(text);
    var t := SkipSpaces(s);
    var signed := t != "" && (t[0] == '-' || t[0] == '+');
    var u := if signed then t[1..] else t;
    var n := DigitsIn(u);
    if n == 0 then (if s == "" then Some(0) else None)
    else if n < |u| || Number(u[..n]) > MAX_U64 then None
    else if signed && t[0] == '-' && Number(u[..n]) > 0 then Some(MAX_U64 + 1 - Number(u[..n]))
    else Some(Number(u[..n]))
  }

  lemma {:induction false} PlainCString(s: string)
    requires '\0' !in s
    ensures CString(s) == s
  {
    if s != "" {
      PlainCString(s[1..]);
      assert s == [s[0]] + s[1..];
    }
  }

  lemma {:induction false} AllDigits(s: string)
    requires forall i :: 0 <= i < |s| ==> IsDigit(s[i])
    ensures DigitsIn(s) == |s|
  {
  }

  /** Printed numbers read back, as long as they fit 64 bits. */
  lemma ReadBack(n: nat)
    ensures ReadReq(Dec(n)) == if n < 0x1_0000_0000_0000_0000 then Some(n) else None
  {
    var s := Dec(n);
    PlainCString(s);
    AllDigits(s);
    NumberOfDec(n);
    assert SkipSpaces(s) == s;
    assert s[..|s|] == s;
  }

  /** The forms of a number that strtoull takes whole: white space, an optional sign and
      digits. */
  predicate NumberForm(text: string, blanks: string, sign: string, digits: string) {
    && text == blanks + sign + digits
    && (forall i :: 0 <= i < |blanks| ==> IsSpace(blanks[i]))
    && (sign == "" || sign == "+" || sign == "-")
    && digits != "" && (forall i :: 0 <= i < |digits| ==> IsDigit(digits[i]))
  }

  /** A text of that form reads as its number, negated modulo two to the 64 behind a minus
      sign, and is refused if the digits alone do not fit 64 bits. */
  lemma ReadForm(text: string, blanks: string, sign: string, digits: string)
    requires NumberForm(CString(text), blanks, sign, digits)
    ensures var n := Number(digits);
            ReadReq(text) == if n > MAX_U64 then None
                             else if sign == "-" && n > 0 then Some(MAX_U64 + 1 - n) else Some(n)
  {
    hide CString, SkipSpaces, DigitsIn, Number;
    var s := CString(text);
    SkipBlanks(blanks, sign + digits);
    assert s == blanks + (sign + digits);
    AllDigits(digits);
    assert sign != "" ==> (sign + digits)[1..] == digits;
    assert sign == "" ==> sign + digits == digits;
    assert digits[..|digits|] == digits;
  }

  lemma {:induction false} SkipBlanks(blanks: string, rest: string)
    requires forall i :: 0 <= i < |blanks| ==> IsSpace(blanks[i])
    requires rest != "" && !IsSpace(rest[0])
    ensures SkipSpaces(blanks + rest) == rest
  {
    if blanks == "" {
      assert blanks + rest == rest;
    } else {
      assert (blanks + rest)[1..] == blanks[1..] + rest;
      SkipBlanks(blanks[1..], rest);
    }
  }

  /** Nothing else is accepted, but for the empty text, which reads as 0. */
  lemma ReadOnlyForms(text: string) returns (blanks: string, sign: string, digits: string)
    ensures CString(text) == "" ==> ReadReq(text) == Some(0)
    ensures CString(text) != "" && ReadReq(text).Some? ==>
              NumberForm(CString(text), blanks, sign, digits) && Number(digits) <= MAX_U64
  {
    hide CString, SkipSpaces, DigitsIn, Number;
    var s := CString(text);
    var t := SkipSpaces(s);
    blanks := SkippedBlanks(s);
    sign := if t == "" then "" else if t[0] == '-' then "-" else if t[0] == '+' then "+" else "";
    digits := t[|sign|..];
    assert t == sign + digits;
    assert digits[..|digits|] == digits;
  }

  lemma {:induction false} SkippedBlanks(s: string) returns (blanks: string)
    ensures s == blanks + SkipSpaces(s) && forall i :: 0 <= i < |blanks| ==> IsSpace(blanks[i])
  {
    if s != "" && IsSpace(s[0]) {
      var rest := SkippedBlanks(s[1..]);
      blanks := [s[0]] + rest;
    } else {
      blanks := "";
    }
  }

  // ---- Tokens ---------------------------------------------------------------

  /** The position of the first such character, or the length. */
  function IndexOf(s: string, c: char): (i: nat)
    ensures i <= |s| && (i < |s| ==> s[i] == c) && forall j :: 0 <= j < i ==> s[j] != c
  {
    if s == "" || s[0] == c then 0 else 1 + IndexOf(s[1..], c)
  }

  /** The text between semicolons; there is always at least one token. */
  function Tokens(s: string): (ts: seq<string>)
    ensures ts != [] && forall i :: 0 <= i < |ts| ==> ';' !in ts[i]
    decreases |s|
  {
    var i := IndexOf(s, ';');
    assert ';' !in s[..i];
    if i == |s| then [s] else [s[..i]] + Tokens(s[i + 1..])
  }

  lemma TokensOf(a: string, b: string)
    requires ';' !in a
    ensures Tokens(a + ";" + b) == [a] + Tokens(b)
  {
    var s := a + ";" + b;
    IndexAfter(a, b);
    assert s[..|a|] == a && s[|a| + 1..] == b;
  }

  lemma {:induction false} IndexAfter(a: string, b: string)
    requires ';' !in a
    ensures IndexOf(a + ";" + b, ';') == |a|
  {
    var s := a + ";" + b;
    if a == "" {
      assert s[0] == ';';
    } else {
      IndexAfter(a[1..], b);
      assert a == [a[0]] + a[1..];
      assert s[1..] == a[1..] + ";" + b;
    }
  }

  lemma LastToken(a: string)
    requires ';' !in a
    ensures Tokens(a) == [a]
  {
  }

  /** Tokens put together again. */
  function Joined(ts: seq<string>): string
    requires ts != []
    decreases |ts|
  {
    if |ts| == 1 then ts[0] else ts[0] + ";" + Joined(ts[1..])
  }

  /** Splitting is the one inverse of joining: the tokens of a text are the only texts
      without semicolon that join to it. */
  lemma {:induction false} TokensExactly(s: string, ts: seq<string>)
    requires ts != [] && forall i :: 0 <= i < |ts| ==> ';' !in ts[i]
    ensures Joined(ts) == s <==> Tokens(s) == ts
  {
    JoinTokens(s);
    if Joined(ts) == s {
      TokensOfJoined(ts);
    }
  }

  lemma {:induction false} JoinTokens(s: string)
    ensures Joined(Tokens(s)) == s
    decreases |s|
  {
    var i := IndexOf(s, ';');
    if i < |s| {
      var rest := s[i + 1..];
      JoinTokens(rest);
      assert Tokens(s)[1..] == Tokens(rest);
      assert s == s[..i] + ";" + rest;
    }
  }

  lemma {:induction false} TokensOfJoined(ts: seq<string>)
    requires ts != [] && forall i :: 0 <= i < |ts| ==> ';' !in ts[i]
    ensures Tokens(Joined(ts)) == ts
    decreases |ts|
  {
    if |ts| == 1 {
      LastToken(ts[0]);
    } else {
      TokensOfJoined(ts[1..]);
      TokensOf(ts[0], Joined(ts[1..]));
    }
  }

  /** The first token of what lies from a position on. */
  lemma TokensFrom(s: string, pos: nat)
    requires pos <= |s|
    ensures var next := pos + IndexOf(s[pos..], ';');
            && pos <= next <= |s|
            && Tokens(s[pos..]) == [s[pos..next]] + if next == |s| then [] else Tokens(s[next + 1..])
  {
    var i := IndexOf(s[pos..], ';');
    assert s[pos..][..i] == s[pos..pos + i];
    if i < |s[pos..]| {
      assert s[pos..][i + 1..] == s[pos + i + 1..];
    } else {
      var token := s[pos..];
      assert s[pos..|s|] == token;
      assert Tokens(token) == [token] == [token] + [];
    }
  }

  // ---- Trimming and case ----------------------------------------------------

  predicate IsLineEnd(c: char) {
    c == '\n' || c == '\r'
  }

  /** Without trailing CR and LF. */
  function Trim(s: string): (t: string)
    ensures t <= s && (t == "" || !IsLineEnd(t[|t| - 1]))
    ensures t == s <==> s == "" || !IsLineEnd(s[|s| - 1])
  {
    if s != "" && IsLineEnd(s[|s| - 1]) then Trim(s[..|s| - 1]) else s
  }

  lemma {:induction false} TrimTail(a: string, b: string)
    requires a != "" && !IsLineEnd(a[|a| - 1])
    ensures Trim(a + b) == a + Trim(b)
  {
    if b == "" {
      assert a + b == a;
    } else {
      assert (a + b)[..|a + b| - 1] == a + b[..|b| - 1];
      TrimTail(a, b[..|b| - 1]);
    }
  }

  function UpperChar(c: char): char {
    if 'a' <= c <= 'z' then (c as int - 32) as char else c
  }

  lemma UpperCodes(c: char)
    ensures UpperChar(c) as int == if 97 <= c as int <= 122 then c as int - 32 else c as int
  {
  }

  function Upper(s: string): (u: string)
    ensures |u| == |s| && forall i :: 0 <= i < |s| ==> u[i] == UpperChar(s[i])
  {
    seq(|s|, i requires 0 <= i < |s| => UpperChar(s[i]))
  }

  function StripRight(s: string): string {
    if s != "" && IsSpace(s[|s| - 1]) then StripRight(s[..|s| - 1]) else s
  }

  /** Without white space at either end. */
  function Strip(s: string): string {
    StripRight(SkipSpaces(s))
  }

  predicate Tight(s: string) {
    s != "" && !IsSpace(s[0]) && !IsSpace(s[|s| - 1])
  }

  lemma StripNewline(s: string)
    requires Tight(s)
    ensures Strip(s) == s && Strip(s + "\n") == s
  {
  }

  lemma {:induction false} SpacesDropped(text: string, after: string)
    requires forall i :: 0 <= i < |after| ==> IsSpace(after[i])
    requires text == "" || !IsSpace(text[|text| - 1])
    ensures StripRight(text + after) == text
  {
    if after == "" {
      assert text + after == text;
    } else {
      assert (text + after)[..|text + after| - 1] == text + after[..|after| - 1];
      SpacesDropped(text, after[..|after| - 1]);
    }
  }

  lemma StripTight(before: string, text: string, after: string)
    requires Tight(text) && forall i :: 0 <= i < |before| ==> IsSpace(before[i])
    requires forall i :: 0 <= i < |after| ==> IsSpace(after[i])
    ensures Strip(before + text + after) == text
  {
    SkipBlanks(before, text + after);
    SpacesDropped(text, after);
    assert before + text + after == before + (text + after);
  }
}
