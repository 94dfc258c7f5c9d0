/**
 The text the autotune cache is made of: lines and fields as `getline` cuts them, and decimal integers as the
 standard library prints and reads them.
 */
module CacheText {

  datatype Option<T> = None | Some(value: T)

  // ---------- Lines and fields ----------

  /** The position of the first `c` in `s`, or the length of `s`. */
  function IndexOf(s: string, c: char): (k: nat)
    ensures k <= |s| && c !in s[..k] && (k < |s| ==> s[k] == c)
  {
    if s == [] || s[0] == c then 0
    else
      assert s[..1 + IndexOf(s[1..], c)] == [s[0]] + s[1..][..IndexOf(s[1..], c)];
      1 + IndexOf(s[1..], c)
  }

  /** The pieces that successive calls of `getline` deliver: an empty piece after the last delimiter is dropped. */
  function Pieces(s: string, delim: char): seq<string>
    decreases |s|
  {
    if s == [] then []
    else
      var k := IndexOf(s, delim);
      [s[..k]] + if k < |s| then Pieces(s[k + 1..], delim) else []
  }

  lemma IndexOfIs(s: string, c: char, k: nat)
    requires k <= |s| && c !in s[..k] && (k < |s| ==> s[k] == c)
    ensures IndexOf(s, c) == k
  {
    var j := IndexOf(s, c);
    forall i | 0 <= i < k ensures s[i] != c {
      assert s[i] == s[..k][i];
    }
    forall i | 0 <= i < j ensures s[i] != c {
      assert s[i] == s[..j][i];
    }
  }

  lemma FirstPiece(p: string, rest: string, delim: char)
    requires delim !in p
    ensures Pieces(p + [delim] + rest, delim) == [p] + Pieces(rest, delim)
  {
    var s := p + [delim] + rest;
    assert s[..|p|] == p && s[|p| + 1..] == rest;
    IndexOfIs(s, delim, |p|);
  }

  lemma LastPiece(p: string, delim: char)
    requires delim !in p && p != []
    ensures Pieces(p, delim) == [p]
  {
    assert p[..|p|] == p;
    IndexOfIs(p, delim, |p|);
  }

  /** No piece contains the delimiter. */
  lemma {:induction false} PiecesAreClean(s: string, delim: char)
    ensures forall p :: p in Pieces(s, delim) ==> delim !in p
    decreases |s|
  {
    if s != [] {
      var k := IndexOf(s, delim);
      if k < |s| {
        PiecesAreClean(s[k + 1..], delim);
      }
    }
  }

  /** The next piece of a stream read so far up to `pos`. */
  method GetLine(s: string, pos: nat, delim: char) returns (got: bool, piece: string, next: nat)
    requires pos <= |s|
    ensures got <==> pos < |s|
    ensures got ==> pos < next <= |s| && Pieces(s[pos..], delim) == [piece] + Pieces(s[next..], delim)
    ensures got ==> delim !in piece
    ensures !got ==> next == pos && Pieces(s[pos..], delim) == []
  {
    hide Pieces;
    got, piece, next := pos < |s|, [], pos;
    NoPiecesLeft(s, delim);
    while next < |s| && s[next] != delim
      invariant pos <= next <= |s| && piece == s[pos..next] && delim !in piece
    {
      assert s[pos..next + 1] == s[pos..next] + [s[next]];
      piece := piece + [s[next]];
      next := next + 1;
    }
    if got {
      NextPiece(s, pos, delim, next);
      if next < |s| {
        next := next + 1;
      }
    }
  }

  lemma NoPiecesLeft(s: string, delim: char)
    ensures Pieces(s[|s|..], delim) == []
  {
  }

  lemma NextPiece(s: string, pos: nat, delim: char, end: nat)
    requires pos < |s| && pos <= end <= |s| && delim !in s[pos..end] && (end < |s| ==> s[end] == delim)
    ensures Pieces(s[pos..], delim) == [s[pos..end]] + Pieces(if end < |s| then s[end + 1..] else s[end..], delim)
  {
    var t := s[pos..];
    assert t[..end - pos] == s[pos..end];
    IndexOfIs(t, delim, end - pos);
    if end < |s| {
      assert t[end - pos + 1..] == s[end + 1..];
    }
  }

  // ---------- Decimal integers ----------

  predicate IsDigit(c: char) {
    '0' <= c <= '9'
  }

  predicate AllDigits(s: string) {
    forall i :: 0 <= i < |s| ==> IsDigit(s[i])
  }

  predicate IsSpace(c: char) {
    c == ' ' || '\t' <= c <= '\r'
  }

  function Value(digits: string): (v: int)
    requires AllDigits(digits)
    ensures v >= 0
  {
    if digits == [] then 0
    else Value(digits[..|digits| - 1]) * 10 + (digits[|digits| - 1] as int - '0' as int)
  }

  function PrintNat(n: nat): (s: string)
    ensures |s| > 0 && AllDigits(s)
  {
    var last := [('0' as int + n % 10) as char];
    if n < 10 then last else PrintNat(n / 10) + last
  }

  function Print(n: int): string {
    if n < 0 then "-" + PrintNat(-n) else PrintNat(n)
  }

  function SkipSpace(s: string): string {
    if s != [] && IsSpace(s[0]) then SkipSpace(s[1..]) else s
  }

  function DigitPrefix(s: string): (d: string)
    ensures d <= s && AllDigits(d)
  {
    if s != [] && IsDigit(s[0]) then [s[0]] + DigitPrefix(s[1..]) else []
  }

  predicate IsInt32(n: int) {
    -0x8000_0000 <= n < 0x8000_0000
  }

  /** White space, an optional sign, and the longest run of digits; what follows is ignored. */
  function Stoi(s: string): (r: Option<int>)
    ensures r.Some? ==> IsInt32(r.value)
  {
    var t := SkipSpace(s);
    var negative := t != [] && t[0] == '-';
    var d := DigitPrefix(if t != [] && (t[0] == '-' || t[0] == '+') then t[1..] else t);
    if d == [] then None
    else
      var n := if negative then -Value(d) else Value(d);
      if IsInt32(n) then Some(n) else None
  }

  lemma {:induction false} ValueOfPrinted(n: nat)
    ensures Value(PrintNat(n)) == n
  {
    var s := PrintNat(n);
    if n < 10 {
      assert s[..|s| - 1] == [];
    } else {
      ValueOfPrinted(n / 10);
      assert s[..|s| - 1] == PrintNat(n / 10);
    }
  }

  lemma {:induction false} AllDigitsPrefix(s: string)
    requires AllDigits(s)
    ensures DigitPrefix(s) == s
  {
    if s != [] {
      AllDigitsPrefix(s[1..]);
    }
  }

  /** Reading a printed 32-bit integer gives it back. */
  lemma StoiOfPrinted(n: int)
    requires IsInt32(n)
    ensures Stoi(Print(n)) == Some(n)
  {
    var m: nat := if n < 0 then -n else n;
    ValueOfPrinted(m);
    StoiOfDigits(PrintNat(m));
  }

  lemma StoiOfDigits(digits: string)
    requires AllDigits(digits) && digits != []
    ensures IsInt32(Value(digits)) ==> Stoi(digits) == Some(Value(digits))
    ensures IsInt32(-Value(digits)) ==> Stoi("-" + digits) == Some(-Value(digits))
  {
    hide Value, PrintNat, DigitPrefix;
    AllDigitsPrefix(digits);
    assert IsDigit(digits[0]);
    var s := "-" + digits;
    assert s[1..] == digits && SkipSpace(s) == s && SkipSpace(digits) == digits;
  }

  /** The six characters that are white space. */
  predicate Blank(c: char) {
    c == ' ' || c == '\t' || c == '\n' || c == '\U{0B}' || c == '\U{0C}' || c == '\r'
  }

  predicate NoDigit(s: string) {
    s == [] || s[0] < '0' || '9' < s[0]
  }

  lemma {:induction false} SpaceIsSkipped(space: string, s: string)
    requires (forall i :: 0 <= i < |space| ==> Blank(space[i])) && (s == [] || !Blank(s[0]))
    ensures SkipSpace(space + s) == s
  {
    if space == [] {
      assert space + s == s;
    } else {
      SpaceIsSkipped(space[1..], s);
      assert (space + s)[0] == space[0] && (space + s)[1..] == space[1..] + s;
    }
  }

  lemma {:induction false} DigitsAreTaken(digits: string, rest: string)
    requires (forall i :: 0 <= i < |digits| ==> '0' <= digits[i] <= '9') && NoDigit(rest)
    ensures DigitPrefix(digits + rest) == digits
  {
    if digits == [] {
      assert digits + rest == rest;
    } else {
      DigitsAreTaken(digits[1..], rest);
      assert (digits + rest)[0] == digits[0] && (digits + rest)[1..] == digits[1..] + rest;
      assert digits == [digits[0]] + digits[1..];
    }
  }

  /** What `Stoi` makes of any text: white space, a sign or none, digits up to something else. A number that does not
      fit in 32 bits is an error, and so is a text without digits there. */
  lemma StoiReads(space: string, sign: string, digits: string, rest: string)
    requires forall i :: 0 <= i < |space| ==> Blank(space[i])
    requires sign == "" || sign == "+" || sign == "-"
    requires (forall i :: 0 <= i < |digits| ==> '0' <= digits[i] <= '9') && NoDigit(rest)
    requires sign == "" && digits == "" ==> rest == "" || (!Blank(rest[0]) && rest[0] != '+' && rest[0] != '-')
    ensures AllDigits(digits)
    ensures
      var n := if sign == "-" then -Value(digits) else Value(digits);
      Stoi(space + (sign + (digits + rest))) ==
        if digits != "" && -2147483648 <= n <= 2147483647 then Some(n) else None
  {
    var t := sign + (digits + rest);
    hide *;
    if sign == "" {
      FirstOfText(digits, rest);
    }
    SignedText(sign, digits + rest);
    SpaceIsSkipped(space, t);
    DigitsAreTaken(digits, rest);
    StoiIs(space + t, t, digits);
  }

  lemma StoiIs(s: string, t: string, d: string)
    requires SkipSpace(s) == t && DigitPrefix(if t != "" && (t[0] == '-' || t[0] == '+') then t[1..] else t) == d
    ensures AllDigits(d)
    ensures
      var n := if t != "" && t[0] == '-' then -Value(d) else Value(d);
      Stoi(s) == if d != "" && -2147483648 <= n <= 2147483647 then Some(n) else None
  {
    hide Value, DigitPrefix, SkipSpace;
  }

  lemma FirstOfText(digits: string, rest: string)
    requires (forall i :: 0 <= i < |digits| ==> '0' <= digits[i] <= '9') && NoDigit(rest)
    requires digits == "" ==> rest == "" || (!Blank(rest[0]) && rest[0] != '+' && rest[0] != '-')
    ensures var text := digits + rest; text == "" || (!Blank(text[0]) && text[0] != '+' && text[0] != '-')
  {
    if digits != "" {
      assert (digits + rest)[0] == digits[0];
    } else {
      assert digits + rest == rest;
    }
  }

  lemma SignedText(sign: string, text: string)
    requires sign == "" || sign == "+" || sign == "-"
    requires sign == "" ==> text == "" || (!Blank(text[0]) && text[0] != '+' && text[0] != '-')
    ensures
      var t := sign + text;
      && (t == "" || !Blank(t[0])) && (t != "" && t[0] == '-' <==> sign == "-")
      && (if t != "" && (t[0] == '-' || t[0] == '+') then t[1..] else t) == text
  {
    if sign == "" {
      assert sign + text == text;
    } else {
      assert (sign + text)[0] == sign[0] && (sign + text)[1..] == text;
    }
  }

  /** An integer is printed without leading zeros, and with a sign exactly when it is negative. */
  lemma PrintedForm(n: int)
    ensures Print(n) != [] && (Print(n)[0] == '-' <==> n < 0)
    ensures
      var digits := if n < 0 then Print(n)[1..] else Print(n);
      digits != [] && AllDigits(digits) && (digits[0] == '0' ==> digits == "0" && n == 0)
  {
    NoLeadingZero(if n < 0 then -n else n);
    hide PrintNat;
    if n < 0 {
      assert Print(n)[1..] == PrintNat(-n);
    }
  }

  lemma {:induction false} NoLeadingZero(n: nat)
    ensures PrintNat(n)[0] == '0' ==> n == 0 && PrintNat(n) == "0"
    ensures PrintNat(n)[0] != '-'
  {
    if n >= 10 {
      NoLeadingZero(n / 10);
      assert PrintNat(n)[0] == PrintNat(n / 10)[0];
    }
  }

  /** A printed integer is not empty and holds neither separators nor newlines. */
  lemma PrintedIsPlain(n: int)
    ensures Print(n) != [] && '|' !in Print(n) && '\n' !in Print(n)
  {
  }
}
