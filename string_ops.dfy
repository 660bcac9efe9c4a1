/**
 * The JavaScript string built-ins that bin/init.js relies on, over `seq<char>`:
 * `String.prototype.trim`, `toLowerCase`, `split`, `includes` and the global `parseInt`.
 */
module StringOps {
  import opened Wrappers

  // ---------------------------------------------------------------- whitespace and trim

  /**
   * The whitespace that `trim` strips and `parseInt` skips: the ECMAScript WhiteSpace and
   * LineTerminator characters (tab, vertical tab, form feed, space, no-break space, the byte
   * order mark and the other space separators, line feed, carriage return, and the line and
   * paragraph separators).
   */
  predicate IsSpace(c: char) {
    || c == '\t' || c == '\U{B}' || c == '\U{C}' || c == ' ' || c == '\U{A0}' || c == '\U{FEFF}'
    || c == '\U{1680}' || '\U{2000}' <= c <= '\U{200A}' || c == '\U{202F}' || c == '\U{205F}'
    || c == '\U{3000}'
    || c == '\n' || c == '\r' || c == '\U{2028}' || c == '\U{2029}'
  }

  predicate AllSpace(s: string) {
    forall i :: 0 <= i < |s| ==> IsSpace(s[i])
  }

  /** Drops the leading whitespace. */
  function TrimStart(s: string): (r: string)
    ensures |r| <= |s|
    decreases |s|
  {
    if |s| > 0 && IsSpace(s[0]) then TrimStart(s[1..]) else s
  }

  /** `s` is whitespace followed by `TrimStart(s)`, which does not start with whitespace. */
  lemma {:induction false} TrimStartSpec(s: string)
    ensures var r := TrimStart(s);
      r == s[|s| - |r|..] && AllSpace(s[..|s| - |r|]) && (r == [] || !IsSpace(r[0]))
    decreases |s|
  {
    if |s| > 0 && IsSpace(s[0]) {
      TrimStartSpec(s[1..]);
      var r := TrimStart(s[1..]);
      assert s[1..][|s| - 1 - |r|..] == s[|s| - |r|..];
      assert s[..|s| - |r|] == [s[0]] + s[1..][..|s| - 1 - |r|];
    }
  }

  /** Drops the trailing whitespace. */
  function TrimEnd(s: string): (r: string)
    ensures |r| <= |s|
    decreases |s|
  {
    if |s| > 0 && IsSpace(s[|s| - 1]) then TrimEnd(s[..|s| - 1]) else s
  }

  /** `s` is `TrimEnd(s)` followed by whitespace, and `TrimEnd(s)` does not end with whitespace. */
  lemma {:induction false} TrimEndSpec(s: string)
    ensures var r := TrimEnd(s);
      r == s[..|r|] && AllSpace(s[|r|..]) && (r == [] || !IsSpace(r[|r| - 1]))
    decreases |s|
  {
    if |s| > 0 && IsSpace(s[|s| - 1]) {
      TrimEndSpec(s[..|s| - 1]);
      var r := TrimEnd(s[..|s| - 1]);
      assert s[..|s| - 1][..|r|] == s[..|r|];
      assert s[|r|..] == s[..|s| - 1][|r|..] + [s[|s| - 1]];
    }
  }

  /** `String.prototype.trim`. */
  function Trim(s: string): string {
    TrimEnd(TrimStart(s))
  }

  /** Text that does not start with whitespace keeps its first character when its end is trimmed. */
  lemma TrimEndKeepsFirst(t: string)
    requires |t| > 0 && !IsSpace(t[0])
    ensures |TrimEnd(t)| > 0 && TrimEnd(t)[0] == t[0]
  {
    TrimEndSpec(t);
  }

  /** `Trim` removes whitespace from the two ends of `s` and nothing else. */
  lemma TrimShape(s: string) returns (i: nat, j: nat)
    ensures i <= j <= |s| && Trim(s) == s[i..j]
    ensures AllSpace(s[..i]) && AllSpace(s[j..])
    ensures Trim(s) == [] || (!IsSpace(Trim(s)[0]) && !IsSpace(Trim(s)[|Trim(s)| - 1]))
  {
    var t := TrimStart(s);
    var r := TrimEnd(t);
    TrimStartSpec(s);
    TrimEndSpec(t);
    i := |s| - |t|;
    j := i + |r|;
    assert s[i..j] == t[..|r|];
    assert s[j..] == t[|r|..];
    if r != [] {
      TrimEndKeepsFirst(t);
    }
  }

  // ---------------------------------------------------------------- toLowerCase

  /** `toLowerCase` on one character, for the ASCII letters only. */
  function LowerChar(c: char): char {
    if 'A' <= c <= 'Z' then (c as int - 'A' as int + 'a' as int) as char else c
  }

  function Lower(s: string): (r: string)
    ensures |r| == |s|
    ensures forall i :: 0 <= i < |s| ==> r[i] == LowerChar(s[i])
  {
    seq(|s|, i requires 0 <= i < |s| => LowerChar(s[i]))
  }

  /** The only strings whose lower case is `"n"` are `"n"` and `"N"`. */
  lemma LowerIsN(s: string)
    ensures Lower(s) == "n" <==> s == "n" || s == "N"
  {
    if Lower(s) == "n" {
      assert LowerChar(s[0]) == 'n';
    }
  }

  // ---------------------------------------------------------------- split and join

  /** Number of occurrences of `c` in `s`. */
  function CountChar(s: string, c: char): nat
    decreases |s|
  {
    if s == [] then 0 else (if s[0] == c then 1 else 0) + CountChar(s[1..], c)
  }

  /** `s.split(sep)` for a one-character separator: never empty, one piece more than separators. */
  function Split(s: string, sep: char): (r: seq<string>)
    ensures |r| == CountChar(s, sep) + 1
    decreases |s|
  {
    if s == [] then [""]
    else
      var rest := Split(s[1..], sep);
      if s[0] == sep then [""] + rest else [[s[0]] + rest[0]] + rest[1..]
  }

  /** `pieces.join(sep)`. */
  function Join(pieces: seq<string>, sep: char): string
    decreases |pieces|
  {
    if pieces == [] then ""
    else if |pieces| == 1 then pieces[0]
    else pieces[0] + [sep] + Join(pieces[1..], sep)
  }

  /** Joining the pieces of a split gives back the original string. */
  lemma {:induction false} JoinSplit(s: string, sep: char)
    ensures Join(Split(s, sep), sep) == s
    decreases |s|
  {
    if s != [] {
      var rest := Split(s[1..], sep);
      JoinSplit(s[1..], sep);
      if s[0] == sep {
        assert s == [sep] + s[1..];
      } else if |rest| == 1 {
        assert s == [s[0]] + s[1..];
      } else {
        assert Join(Split(s, sep), sep) == [s[0]] + rest[0] + [sep] + Join(rest[1..], sep);
        assert s == [s[0]] + s[1..];
      }
    }
  }

  /** No piece of a split contains the separator. */
  lemma {:induction false} SplitPiecesFree(s: string, sep: char)
    ensures forall k :: 0 <= k < |Split(s, sep)| ==> sep !in Split(s, sep)[k]
    decreases |s|
  {
    if s != [] {
      SplitPiecesFree(s[1..], sep);
      var rest := Split(s[1..], sep);
      if s[0] != sep {
        var r := Split(s, sep);
        forall k | 0 <= k < |r| ensures sep !in r[k] {
          if k == 0 {
            assert r[0] == [s[0]] + rest[0];
          } else {
            assert r[k] == rest[k];
          }
        }
      }
    }
  }

  /** A leading separator starts with an empty piece. */
  lemma SplitConsSep(s: string, sep: char)
    ensures Split([sep] + s, sep) == [""] + Split(s, sep)
  {
    assert ([sep] + s)[1..] == s;
  }

  /** Any other leading character joins the first piece. */
  lemma SplitConsOther(c: char, s: string, sep: char)
    requires c != sep
    ensures Split([c] + s, sep) == [[c] + Split(s, sep)[0]] + Split(s, sep)[1..]
  {
    assert ([c] + s)[1..] == s;
  }

  /** A separator-free string is a single piece. */
  lemma {:induction false} SplitFree(p: string, sep: char)
    requires sep !in p
    ensures Split(p, sep) == [p]
    decreases |p|
  {
    if p != [] {
      assert sep !in p[1..] by { assert forall x :: x in p[1..] ==> x in p; }
      SplitFree(p[1..], sep);
      assert p == [p[0]] + p[1..];
      SplitConsOther(p[0], p[1..], sep);
    }
  }

  /** A separator-free piece followed by the separator splits off as the first piece. */
  lemma {:induction false} SplitPieceThenSep(p: string, s: string, sep: char)
    requires sep !in p
    ensures Split(p + [sep] + s, sep) == [p] + Split(s, sep)
    decreases |p|
  {
    if p == [] {
      assert p + [sep] + s == [sep] + s;
      SplitConsSep(s, sep);
    } else {
      assert sep !in p[1..] by { assert forall x :: x in p[1..] ==> x in p; }
      SplitPieceThenSep(p[1..], s, sep);
      assert p + [sep] + s == [p[0]] + (p[1..] + [sep] + s);
      SplitConsOther(p[0], p[1..] + [sep] + s, sep);
      assert [p[0]] + p[1..] == p;
    }
  }

  /** Splitting a join of separator-free pieces gives back the pieces. */
  lemma {:induction false} SplitJoin(pieces: seq<string>, sep: char)
    requires |pieces| >= 1
    requires forall k :: 0 <= k < |pieces| ==> sep !in pieces[k]
    ensures Split(Join(pieces, sep), sep) == pieces
    decreases |pieces|
  {
    if |pieces| == 1 {
      SplitFree(pieces[0], sep);
    } else {
      SplitJoin(pieces[1..], sep);
      SplitPieceThenSep(pieces[0], Join(pieces[1..], sep), sep);
      assert [pieces[0]] + pieces[1..] == pieces;
    }
  }

  // ---------------------------------------------------------------- includes

  /** `s` starts with `p`. */
  predicate StartsWith(s: string, p: string) {
    |p| <= |s| && s[..|p|] == p
  }

  /** `s.includes(sub)`, scanning from the left. */
  predicate Includes(s: string, sub: string)
    decreases |s|
  {
    StartsWith(s, sub) || (|s| > 0 && Includes(s[1..], sub))
  }

  /** `sub` occurs in `s` at offset `i`. */
  predicate OccursAt(s: string, sub: string, i: int) {
    0 <= i && i + |sub| <= |s| && s[i..i + |sub|] == sub
  }

  /** An occurrence in the tail of `s` is an occurrence in `s` one position further on. */
  lemma OccursInTail(s: string, sub: string, i: int)
    requires |s| > 0 && i >= 0
    ensures OccursAt(s[1..], sub, i) <==> OccursAt(s, sub, i + 1)
  {
    if 0 <= i && i + |sub| <= |s| - 1 {
      assert s[1..][i..i + |sub|] == s[i + 1..i + 1 + |sub|];
    }
  }

  /** When the scan succeeds, `sub` occurs at some offset. */
  lemma {:induction false} IncludesFound(s: string, sub: string)
    requires Includes(s, sub)
    ensures exists i :: OccursAt(s, sub, i)
    decreases |s|
  {
    if StartsWith(s, sub) {
      assert OccursAt(s, sub, 0);
    } else {
      IncludesFound(s[1..], sub);
      var i :| OccursAt(s[1..], sub, i);
      OccursInTail(s, sub, i);
    }
  }

  /** An occurrence at offset `i` is found by the scan. */
  lemma {:induction false} OccurrenceFound(s: string, sub: string, i: int)
    requires OccursAt(s, sub, i)
    ensures Includes(s, sub)
    decreases i
  {
    if i == 0 {
      assert StartsWith(s, sub);
    } else {
      OccursInTail(s, sub, i - 1);
      OccurrenceFound(s[1..], sub, i - 1);
    }
  }

  /** The scan finds `sub` exactly when it occurs somewhere in `s`. */
  lemma IncludesIff(s: string, sub: string)
    ensures Includes(s, sub) <==> exists i :: OccursAt(s, sub, i)
  {
    if Includes(s, sub) {
      IncludesFound(s, sub);
    }
    forall i | OccursAt(s, sub, i) ensures Includes(s, sub) {
      OccurrenceFound(s, sub, i);
    }
  }

  /** Appending text keeps every occurrence already present. */
  lemma IncludesAppend(s: string, t: string, sub: string)
    requires Includes(s, sub)
    ensures Includes(s + t, sub)
  {
    IncludesIff(s, sub);
    var i :| OccursAt(s, sub, i);
    assert (s + t)[i..i + |sub|] == s[i..i + |sub|];
    assert OccursAt(s + t, sub, i);
    IncludesIff(s + t, sub);
  }

  /** Text that contains `sub` still contains it when more text is put in front. */
  lemma IncludesPrepend(s: string, t: string, sub: string)
    requires Includes(t, sub)
    ensures Includes(s + t, sub)
  {
    IncludesIff(t, sub);
    var i :| OccursAt(t, sub, i);
    assert (s + t)[|s| + i..|s| + i + |sub|] == t[i..i + |sub|];
    assert OccursAt(s + t, sub, |s| + i);
    IncludesIff(s + t, sub);
  }

  /** A string contains every string it is built around. */
  lemma IncludesMiddle(a: string, sub: string, b: string)
    ensures Includes(a + sub + b, sub)
  {
    assert (a + sub + b)[|a|..|a| + |sub|] == sub;
    assert OccursAt(a + sub + b, sub, |a|);
    IncludesIff(a + sub + b, sub);
  }

  // ---------------------------------------------------------------- parseInt

  predicate IsDigit(c: char) {
    '0' <= c <= '9'
  }

  predicate AllDigits(s: string) {
    forall i :: 0 <= i < |s| ==> IsDigit(s[i])
  }

  function DigitValue(c: char): nat {
    if IsDigit(c) then c as int - '0' as int else 0
  }

  function DigitChar(d: nat): char
    requires d < 10
  {
    ('0' as int + d) as char
  }

  /** The longest prefix of `s` made of decimal digits. */
  function LeadingDigits(s: string): (r: string)
    ensures |r| <= |s|
    decreases |s|
  {
    if |s| > 0 && IsDigit(s[0]) then [s[0]] + LeadingDigits(s[1..]) else ""
  }

  /** `LeadingDigits(s)` starts `s`, is all digits, and is followed by a non-digit or nothing. */
  lemma {:induction false} LeadingDigitsSpec(s: string)
    ensures var r := LeadingDigits(s);
      r == s[..|r|] && AllDigits(r) && (|r| == |s| || !IsDigit(s[|r|]))
    decreases |s|
  {
    if |s| > 0 && IsDigit(s[0]) {
      LeadingDigitsSpec(s[1..]);
      var r := LeadingDigits(s[1..]);
      assert s[..|r| + 1] == [s[0]] + s[1..][..|r|];
    }
  }

  /** The value of a string of decimal digits, most significant first. */
  function DigitsValue(d: string): nat
    decreases |d|
  {
    if d == [] then 0 else 10 * DigitsValue(d[..|d| - 1]) + DigitValue(d[|d| - 1])
  }

  /** Whether the text starts with a minus sign. */
  predicate Negative(t: string) {
    |t| > 0 && t[0] == '-'
  }

  /** The text after its sign, if it has one. */
  function Unsigned(t: string): (r: string)
    ensures |r| <= |t|
  {
    if |t| > 0 && (t[0] == '-' || t[0] == '+') then t[1..] else t
  }

  /** The number read, negated after a minus sign. */
  function WithSign(negative: bool, digits: Option<int>): Option<int> {
    match digits
    case None => None
    case Some(v) => Some(if negative then -v else v)
  }

  /** Optional sign then leading digits, on text whose leading whitespace is already skipped. */
  function ParseSigned(t: string): Option<int> {
    WithSign(Negative(t), ParseDigits(Unsigned(t)))
  }

  /** The value of the leading digits, or `None` when there is none. */
  function ParseDigits(s: string): Option<int> {
    var d := LeadingDigits(s);
    if d == [] then None else Some(DigitsValue(d))
  }

  /**
   * `parseInt(s)` without a radix: skip leading whitespace, take an optional sign and then
   * the leading decimal digits; `None` stands for `NaN` (no digit at all).
   */
  function ParseInt(s: string): Option<int> {
    ParseSigned(TrimStart(s))
  }

  /** Decimal rendering of a natural number, without leading zeros. */
  function ShowNat(n: nat): (r: string)
    ensures |r| > 0
    decreases n
  {
    if n < 10 then [DigitChar(n)] else ShowNat(n / 10) + [DigitChar(n % 10)]
  }

  /** The decimal numeral for an integer, as a user types it: an optional minus sign, then digits. */
  function ShowInt(n: int): string {
    if n < 0 then "-" + ShowNat(-n) else ShowNat(n)
  }

  /** `ShowNat` writes digits only, and they read back as `n`. */
  lemma {:induction false} ShowNatSpec(n: nat)
    ensures AllDigits(ShowNat(n)) && DigitsValue(ShowNat(n)) == n
    decreases n
  {
    if n >= 10 {
      ShowNatSpec(n / 10);
      var r := ShowNat(n);
      assert r[..|r| - 1] == ShowNat(n / 10);
    }
  }

  /** Leading digits stop at the first character that is not a digit. */
  lemma {:induction false} LeadingDigitsOfAppend(d: string, rest: string)
    requires AllDigits(d)
    requires rest == [] || !IsDigit(rest[0])
    ensures LeadingDigits(d + rest) == d
    decreases |d|
  {
    if d != [] {
      assert (d + rest)[1..] == d[1..] + rest;
      LeadingDigitsOfAppend(d[1..], rest);
    }
  }

  /** Text that does not start with whitespace is parsed as it stands. */
  lemma ParseIntNoSpace(s: string)
    requires |s| > 0 && !IsSpace(s[0])
    ensures ParseInt(s) == ParseSigned(s)
  {
  }

  /** The digits of a number, followed by a non-digit or nothing, read back as its value. */
  lemma ParseDigitsOfAppend(n: nat, rest: string)
    requires rest == [] || !IsDigit(rest[0])
    ensures ParseDigits(ShowNat(n) + rest) == Some(n)
  {
    ShowNatSpec(n);
    LeadingDigitsOfAppend(ShowNat(n), rest);
  }

  /** `parseInt` reads back a printed negative number, also when other text follows it. */
  lemma ParseShowNegative(n: int, rest: string)
    requires n < 0
    requires rest == [] || !IsDigit(rest[0])
    ensures ParseInt(ShowInt(n) + rest) == Some(n)
  {
    var s := ShowInt(n) + rest;
    NegativeShape(n, rest);
    ParseIntNoSpace(s);
    ParseDigitsOfAppend(-n, rest);
    assert ParseSigned(s) == WithSign(true, Some(-n));
  }

  /** A printed negative number starts with its minus sign, followed by the digits of its magnitude. */
  lemma NegativeShape(n: int, rest: string)
    requires n < 0
    ensures var s := ShowInt(n) + rest;
      |s| > 0 && s[0] == '-' && Negative(s) && Unsigned(s) == ShowNat(-n) + rest
  {
    var s := ShowInt(n) + rest;
    assert s == "-" + (ShowNat(-n) + rest);
  }

  /** `parseInt` reads back a printed natural number, also when other text follows it. */
  lemma ParseShowNatural(n: nat, rest: string)
    requires rest == [] || !IsDigit(rest[0])
    ensures ParseInt(ShowInt(n) + rest) == Some(n)
  {
    var s := ShowInt(n) + rest;
    var d := ShowNat(n);
    ShowNatSpec(n);
    assert s == d + rest;
    assert s[0] == d[0] && IsDigit(d[0]);
    assert !Negative(s) && Unsigned(s) == s;
    ParseDigitsOfAppend(n, rest);
    ParseIntNoSpace(s);
  }

  /** `parseInt` reads back the decimal numeral of every integer, also when other text follows it. */
  lemma ParseShowInt(n: int, rest: string)
    requires rest == [] || !IsDigit(rest[0])
    ensures ParseInt(ShowInt(n) + rest) == Some(n)
  {
    if n < 0 {
      ParseShowNegative(n, rest);
    } else {
      ParseShowNatural(n, rest);
    }
  }

  /** `parseInt` reads back the decimal numeral of every integer. */
  lemma ParseIntShowInt(n: int)
    ensures ParseInt(ShowInt(n)) == Some(n)
  {
    ParseShowInt(n, "");
    assert ShowInt(n) + "" == ShowInt(n);
  }

  /** Trailing whitespace never changes the leading digits. */
  lemma LeadingDigitsTrimEnd(s: string)
    ensures LeadingDigits(TrimEnd(s)) == LeadingDigits(s)
  {
    var r := TrimEnd(s);
    TrimEndSpec(s);
    LeadingDigitsSpec(r);
    var d := LeadingDigits(r);
    var rest := r[|d|..];
    assert r == d + rest;
    if rest == [] {
      var w := s[|r|..];
      assert s == d + w;
      LeadingDigitsOfAppend(d, w);
    } else {
      assert s == d + (rest + s[|r|..]);
      LeadingDigitsOfAppend(d, rest + s[|r|..]);
    }
  }

  /** Trimming the end commutes with dropping a first character that is not whitespace. */
  lemma {:induction false} TrimEndOfTail(t: string)
    requires |t| > 0 && !IsSpace(t[0])
    ensures |TrimEnd(t)| > 0
    ensures TrimEnd(t[1..]) == TrimEnd(t)[1..]
    decreases |t|
  {
    TrimEndKeepsFirst(t);
    if IsSpace(t[|t| - 1]) {
      assert |t| > 1;
      assert t[1..][..|t| - 2] == t[..|t| - 1][1..];
      TrimEndOfTail(t[..|t| - 1]);
    }
  }

  /** Trailing whitespace neither changes the sign nor stays after it. */
  lemma UnsignedTrimEnd(t: string)
    requires t == [] || !IsSpace(t[0])
    ensures Negative(TrimEnd(t)) == Negative(t)
    ensures Unsigned(TrimEnd(t)) == TrimEnd(Unsigned(t))
  {
    if t != [] {
      TrimEndKeepsFirst(t);
      if t[0] == '+' || t[0] == '-' {
        TrimEndOfTail(t);
      }
    }
  }

  /** Reading the digits does not depend on trailing whitespace. */
  lemma ParseDigitsTrimEnd(t: string)
    ensures ParseDigits(TrimEnd(t)) == ParseDigits(t)
  {
    LeadingDigitsTrimEnd(t);
  }

  /** The number read after an optional sign does not depend on trailing whitespace. */
  lemma ParseSignedTrimEnd(t: string)
    requires t == [] || !IsSpace(t[0])
    ensures ParseSigned(TrimEnd(t)) == ParseSigned(t)
  {
    UnsignedTrimEnd(t);
    ParseDigitsTrimEnd(Unsigned(t));
  }

  /** The `trim()` applied to each piece before `parseInt` never changes the number read. */
  lemma ParseIntTrim(s: string)
    ensures ParseInt(Trim(s)) == ParseInt(s)
  {
    var t := TrimStart(s);
    var r := TrimEnd(t);
    TrimStartSpec(s);
    if r != [] {
      TrimEndKeepsFirst(t);
    }
    assert TrimStart(r) == r;
    ParseSignedTrimEnd(t);
  }
}
