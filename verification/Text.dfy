/** The text helpers of Utils.hpp: split, join and decimal numbers. */
module Text {

  import opened Common

  /* Splitting follows std::getline: a delimiter ends a token, and a last token that is empty is
     not produced. */

  // Position of the first delimiter, or the length of the text.
  function Scan(s: string, delimiter: char): (i: nat)
    ensures i <= |s|
    ensures forall k :: 0 <= k < i ==> s[k] != delimiter
    ensures i < |s| ==> s[i] == delimiter
  {
    if s == "" || s[0] == delimiter then 0 else 1 + Scan(s[1..], delimiter)
  }

  function Tokens(s: string, delimiter: char): (tokens: seq<string>)
    decreases |s|
  {
    if s == "" then []
    else
      var i := Scan(s, delimiter);
      [s[..i]] + Tokens(s[if i < |s| then i + 1 else i..], delimiter)
  }

  // Each round is one std::getline on what is left of the stream.
  method Split(s: string, delimiter: char) returns (tokens: seq<string>)
    ensures tokens == Tokens(s, delimiter)
  {
    tokens := [];
    var rest := s;
    while rest != ""
      invariant tokens + Tokens(rest, delimiter) == Tokens(s, delimiter)
      decreases |rest|
    {
      var i := Scan(rest, delimiter);
      tokens := tokens + [rest[..i]];
      rest := rest[if i < |rest| then i + 1 else i..];
    }
  }

  function Joined(v: seq<string>, delimiter: char): (s: string) {
    if v == [] then ""
    else if |v| == 1 then v[0]
    else v[0] + [delimiter] + Joined(v[1..], delimiter)
  }

  method Join(v: seq<string>, delimiter: char) returns (s: string)
    ensures s == Joined(v, delimiter)
  {
    s := "";
    for i := 0 to |v|
      invariant s == if i == 0 then ""
                     else if i == |v| then Joined(v, delimiter)
                     else Joined(v[..i], delimiter) + [delimiter]
    {
      assert v[..i + 1] == v[..i] + [v[i]];
      JoinedSnoc(v[..i], v[i], delimiter);
      s := s + v[i];
      assert i + 1 == |v| ==> v[..i + 1] == v;
      if i != |v| - 1 {
        s := s + [delimiter];
      }
    }
  }

  lemma {:induction false} JoinedSnoc(v: seq<string>, last: string, delimiter: char)
    ensures Joined(v + [last], delimiter) == if v == [] then last else Joined(v, delimiter) + [delimiter] + last
  {
    if v == [] {
      assert v + [last] == [last];
    } else {
      assert (v + [last])[1..] == v[1..] + [last];
      JoinedSnoc(v[1..], last, delimiter);
    }
  }

  ghost predicate FreeOf(s: string, c: char) {
    forall i :: 0 <= i < |s| ==> s[i] != c
  }

  ghost predicate AllFreeOf(v: seq<string>, c: char) {
    forall i :: 0 <= i < |v| ==> FreeOf(v[i], c)
  }

  lemma ScanStopsAt(token: string, rest: string, delimiter: char)
    requires FreeOf(token, delimiter)
    requires rest != "" ==> rest[0] == delimiter
    ensures Scan(token + rest, delimiter) == |token|
  {
    var s := token + rest;
    assert forall k :: 0 <= k < |token| ==> s[k] == token[k];
    assert rest != "" ==> s[|token|] == rest[0];
  }

  lemma TokensCons(token: string, rest: string, delimiter: char)
    requires FreeOf(token, delimiter)
    ensures Tokens(token + [delimiter] + rest, delimiter) == [token] + Tokens(rest, delimiter)
  {
    var s := token + [delimiter] + rest;
    assert s == token + ([delimiter] + rest);
    ScanStopsAt(token, [delimiter] + rest, delimiter);
    assert s[..|token|] == token && s[|token| + 1..] == rest;
  }

  lemma TokensOfOne(token: string, delimiter: char)
    requires FreeOf(token, delimiter)
    ensures Tokens(token, delimiter) == if token == "" then [] else [token]
  {
    ScanStopsAt(token, "", delimiter);
    assert token + "" == token && token[|token|..] == "" && token[..|token|] == token;
  }

  // Splitting a joined list gives the list back, short of an empty last item.
  lemma {:induction false} TokensOfJoined(v: seq<string>, delimiter: char)
    requires AllFreeOf(v, delimiter)
    ensures Tokens(Joined(v, delimiter), delimiter) ==
            if v != [] && v[|v| - 1] == "" then v[..|v| - 1] else v
  {
    hide Scan;
    if v == [] {
    } else if |v| == 1 {
      TokensOfOne(v[0], delimiter);
    } else {
      var tail := v[1..];
      TokensCons(v[0], Joined(tail, delimiter), delimiter);
      TokensOfJoined(tail, delimiter);
      assert v == [v[0]] + tail && v[..|v| - 1] == [v[0]] + tail[..|tail| - 1];
    }
  }

  lemma {:induction false} TokensFreeOfDelimiter(s: string, delimiter: char)
    ensures AllFreeOf(Tokens(s, delimiter), delimiter)
    decreases |s|
  {
    if s != "" {
      var i := Scan(s, delimiter);
      if i < |s| {
        TokensFreeOfDelimiter(s[i + 1..], delimiter);
      }
    }
  }

  // Join followed by split is the identity exactly on lists of delimiter-free items that do not
  // end in an empty one.
  lemma SplitUndoesJoin(v: seq<string>, delimiter: char)
    ensures Tokens(Joined(v, delimiter), delimiter) == v
       <==> AllFreeOf(v, delimiter) && (v == [] || v[|v| - 1] != "")
  {
    TokensFreeOfDelimiter(Joined(v, delimiter), delimiter);
    if AllFreeOf(v, delimiter) {
      TokensOfJoined(v, delimiter);
    }
  }

  // ::tolower on every character, in the C locale.
  function LowerChar(c: char): (r: char) {
    if 'A' <= c <= 'Z' then c + 32 as char else c
  }

  function Lower(s: string): (r: string)
    ensures |r| == |s| && forall i :: 0 <= i < |s| ==> r[i] == LowerChar(s[i])
  {
    seq(|s|, i requires 0 <= i < |s| => LowerChar(s[i]))
  }

  // What `.` does not match in an ECMAScript regular expression.
  predicate IsLineTerminator(c: char) {
    c == '\n' || c == '\r' || c == '\U{2028}' || c == '\U{2029}'
  }

  /* Decimal numbers: std::to_string and std::stoull. */

  function Digit(d: nat): (c: char)
    requires d < 10
  {
    '0' + d as char
  }

  predicate IsDigit(c: char) {
    '0' <= c <= '9'
  }

  function Decimal(n: nat): (s: string)
    ensures s != "" && forall i :: 0 <= i < |s| ==> IsDigit(s[i])
  {
    if n < 10 then [Digit(n)] else Decimal(n / 10) + [Digit(n % 10)]
  }

  function DigitsValue(s: string): (n: nat)
    requires forall i :: 0 <= i < |s| ==> IsDigit(s[i])
  {
    if s == "" then 0
    else
      var last := s[|s| - 1];
      assert IsDigit(last);
      10 * DigitsValue(s[..|s| - 1]) + (last - '0') as nat
  }

  function LeadingDigits(s: string): (k: nat)
    ensures k <= |s|
    ensures forall i :: 0 <= i < k ==> IsDigit(s[i])
    ensures k < |s| ==> !IsDigit(s[k])
  {
    if s == "" || !IsDigit(s[0]) then 0 else 1 + LeadingDigits(s[1..])
  }

  const UINT64 := 0x1_0000_0000_0000_0000

  // std::stoull on text without a leading blank or sign: the longest run of digits, which must be
  // there and fit 64 bits.
  function Stoull(s: string): (r: Result<nat>) {
    var k := LeadingDigits(s);
    if k == 0 || DigitsValue(s[..k]) >= UINT64 then Throws else Ok(DigitsValue(s[..k]))
  }

  lemma {:induction false} DecimalValue(n: nat)
    ensures DigitsValue(Decimal(n)) == n
  {
    if n >= 10 {
      DecimalValue(n / 10);
      var s := Decimal(n);
      assert s[..|s| - 1] == Decimal(n / 10);
    }
  }

  // Reading a printed number gives the number back.
  lemma StoullOfDecimal(n: nat)
    requires n < UINT64
    ensures Stoull(Decimal(n)) == Ok(n)
  {
    var s := Decimal(n);
    var k := LeadingDigits(s);
    assert k == |s|;
    assert s[..k] == s;
    DecimalValue(n);
  }

  lemma DecimalInjective(a: nat, b: nat)
    requires Decimal(a) == Decimal(b)
    ensures a == b
  {
    DecimalValue(a);
    DecimalValue(b);
  }
}
