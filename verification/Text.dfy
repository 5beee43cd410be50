// The string functions of the source that the model depends on, on ASCII:
// strings.ToLower, ToUpper and TrimSpace, the %d verb, and the integer cast of
// the database.
module Text {
  datatype Option<T> = None | Some(value: T)

  function LowerChar(c: char): char {
    if 'A' <= c <= 'Z' then (c as int + 32) as char else c
  }

  function UpperChar(c: char): char {
    if 'a' <= c <= 'z' then (c as int - 32) as char else c
  }

  function Lower(s: string): (r: string)
    ensures |r| == |s| && forall i :: 0 <= i < |s| ==> r[i] == LowerChar(s[i])
  {
    seq(|s|, i requires 0 <= i < |s| => LowerChar(s[i]))
  }

  function Upper(s: string): (r: string)
    ensures |r| == |s| && forall i :: 0 <= i < |s| ==> r[i] == UpperChar(s[i])
  {
    seq(|s|, i requires 0 <= i < |s| => UpperChar(s[i]))
  }

  predicate IsSpace(c: char) {
    c == ' ' || c == '\t' || c == '\n' || c == '\r' || c as int == 11 || c as int == 12
  }

  function Trim(s: string): string {
    if s == "" then s
    else if IsSpace(s[0]) then Trim(s[1..])
    else if IsSpace(s[|s| - 1]) then Trim(s[..|s| - 1])
    else s
  }

  lemma JoinFirst(s: string, u: string, v: string, w: string)
    requires s != "" && s[1..] == u + v + w
    ensures s == [s[0]] + u + v + w
  {
  }

  lemma JoinLast(s: string, u: string, v: string, w: string)
    requires s != "" && s[..|s| - 1] == u + v + w
    ensures s == u + v + (w + [s[|s| - 1]])
  {
    assert s == s[..|s| - 1] + [s[|s| - 1]];
  }

  // What is cut off on either side is space, and what is left neither starts nor
  // ends with one.
  lemma {:induction false} TrimMeans(s: string) returns (left: string, right: string)
    ensures s == left + Trim(s) + right
    ensures forall i :: 0 <= i < |left| ==> IsSpace(left[i])
    ensures forall i :: 0 <= i < |right| ==> IsSpace(right[i])
    ensures Trim(s) != "" ==> !IsSpace(Trim(s)[0]) && !IsSpace(Trim(s)[|Trim(s)| - 1])
  {
    left, right := "", "";
    if s != "" && IsSpace(s[0]) {
      left, right := TrimMeans(s[1..]);
      JoinFirst(s, left, Trim(s), right);
      left := [s[0]] + left;
    } else if s != "" && IsSpace(s[|s| - 1]) {
      left, right := TrimMeans(s[..|s| - 1]);
      JoinLast(s, left, Trim(s), right);
      right := right + [s[|s| - 1]];
    }
  }

  // ------------------------------------------------------------------ decimals

  predicate IsDigit(c: char) {
    '0' <= c <= '9'
  }

  function Digit(d: int): (c: char)
    requires 0 <= d <= 9
    ensures IsDigit(c) && c as int == '0' as int + d
  {
    (d + '0' as int) as char
  }

  function Digits(n: nat): (s: string)
    ensures s != "" && forall i :: 0 <= i < |s| ==> IsDigit(s[i])
  {
    if n < 10 then [Digit(n)] else Digits(n / 10) + [Digit(n % 10)]
  }

  function Render(n: int): (s: string)
    ensures s != "" && forall i :: 0 <= i < |s| ==> IsDigit(s[i]) || s[i] == '-'
  {
    if n < 0 then "-" + Digits(-n) else Digits(n)
  }

  function Value(s: string): nat
    requires forall i :: 0 <= i < |s| ==> IsDigit(s[i])
  {
    if s == "" then 0 else
      assert IsDigit(s[|s| - 1]);
      10 * Value(s[..|s| - 1]) + (s[|s| - 1] as int - '0' as int)
  }

  lemma {:induction false} ValueOfDigits(n: nat)
    ensures Value(Digits(n)) == n
  {
    if n >= 10 {
      ValueOfDigits(n / 10);
      assert Digits(n)[..|Digits(n)| - 1] == Digits(n / 10);
    } else {
      assert Digits(n)[..0] == "";
    }
  }

  predicate IsNumber(d: string) {
    d != "" && forall i :: 0 <= i < |d| ==> IsDigit(d[i])
  }

  // An optional sign, at least one digit, and a value that fits the column.
  function ParseInt(s: string): Option<int> {
    var negative := s != "" && s[0] == '-';
    var signed := negative || (s != "" && s[0] == '+');
    var body := if signed then s[1..] else s;
    if !IsNumber(body) then None else
      var v: int := Value(body);
      var n := if negative then -v else v;
      if -0x8000_0000 <= n < 0x8000_0000 then Some(n) else None
  }

  // s writes n in decimal, perhaps with zeros in front, after the sign.
  ghost predicate Writes(s: string, sign: string, n: nat) {
    exists d :: IsNumber(d) && s == sign + d && Value(d) == n
  }

  function Signed(sign: string, v: int): int {
    if sign == "-" then -v else v
  }

  lemma ParsedWrites(s: string, n: int)
    requires ParseInt(s) == Some(n)
    ensures (n >= 0 && (Writes(s, "", n) || Writes(s, "+", n))) || (n <= 0 && Writes(s, "-", -n))
  {
    var sign := if s[0] == '-' then "-" else if s[0] == '+' then "+" else "";
    var d := if sign == "" then s else s[1..];
    assert s == sign + d && Writes(s, sign, Value(d));
  }

  lemma WrittenParses(s: string, sign: string, d: string)
    requires IsNumber(d) && s == sign + d && sign in {"", "+", "-"}
    ensures var n := Signed(sign, Value(d));
            ParseInt(s) == if -0x8000_0000 <= n <= 0x7fff_ffff then Some(n) else None
  {
    assert s[|sign|..] == d;
    assert IsDigit(d[0]);
  }

  // A text reads as n exactly when it writes n, with or without a sign, and n
  // fits 32 bits.
  lemma ParseIntMeans(s: string, n: int)
    ensures ParseInt(s) == Some(n) <==>
              && -0x8000_0000 <= n <= 0x7fff_ffff
              && ((n >= 0 && (Writes(s, "", n) || Writes(s, "+", n))) || (n <= 0 && Writes(s, "-", -n)))
  {
    if ParseInt(s) == Some(n) {
      ParsedWrites(s, n);
    }
    forall sign, d | IsNumber(d) && s == sign + d && sign in {"", "+", "-"}
      ensures ParseInt(s) == var m := Signed(sign, Value(d));
                             if -0x8000_0000 <= m <= 0x7fff_ffff then Some(m) else None
    {
      WrittenParses(s, sign, d);
    }
  }

  lemma ParseRendered(n: int)
    requires -0x8000_0000 <= n < 0x8000_0000
    ensures ParseInt(Render(n)) == Some(n)
  {
    if n < 0 {
      ValueOfDigits(-n);
      assert Render(n)[1..] == Digits(-n);
    } else {
      ValueOfDigits(n);
    }
  }

  lemma RenderIsInjective(m: int, n: int)
    requires Render(m) == Render(n)
    ensures m == n
  {
    assert m < 0 <==> Render(m)[0] == '-';
    assert n < 0 <==> Render(n)[0] == '-';
    ValueOfDigits(if m < 0 then -m else m);
    ValueOfDigits(if n < 0 then -n else n);
    if m < 0 {
      assert Render(m)[1..] == Digits(-m) && Render(n)[1..] == Digits(-n);
    }
  }
}
