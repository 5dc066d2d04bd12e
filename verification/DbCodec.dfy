/** The text formats of the index file: decimal fields written with "%d" and "%*d" and
    read back with atol, and the body of an index record. */
module DbCodec {

  const PTR_SZ := 7
  const PTR_MAX := 9999999
  const IDXLEN_SZ := 4
  const IDXLEN_MIN := 6
  const IDXLEN_MAX := 1024
  const DATLEN_MIN := 2
  const DATLEN_MAX := 1024
  const SEP := ':'
  const NEWLINE := '\n'
  const NUL := '\0'
  const BLANK := ' '

  /** Flags of db_store. */
  const DB_INSERT := 1
  const DB_REPLACE := 2
  const DB_STORE := 3

  // ----- decimal text -----

  predicate IsDigit(c: char) { '0' <= c <= '9' }

  predicate AllDigits(s: string) { forall i | 0 <= i < |s| :: IsDigit(s[i]) }

  function Digit(d: nat): (c: char)
    requires d < 10
    ensures IsDigit(c)
  {
    '0' + d as char
  }

  /** The digits printf writes for a non-negative number. */
  function Decimal(n: nat): string {
    if n < 10 then [Digit(n)] else Decimal(n / 10) + [Digit(n % 10)]
  }

  lemma {:induction false} DecimalDigits(n: nat)
    ensures Decimal(n) != [] && AllDigits(Decimal(n))
  {
    if n >= 10 { DecimalDigits(n / 10); }
  }

  function Blanks(n: nat): (s: string)
    ensures |s| == n && AllBlank(s)
  {
    seq(n, _ => BLANK)
  }

  predicate AllBlank(s: string) { forall i | 0 <= i < |s| :: s[i] == BLANK }

  /** "%*d": right-justified in w columns, and wider than w when the number needs it. */
  function Padded(w: nat, n: nat): string {
    var d := Decimal(n);
    Blanks(if |d| < w then w - |d| else 0) + d
  }

  predicate IsSpace(c: char) { c == BLANK || '\t' <= c <= '\r' }

  function SkipSpaces(s: string): string {
    if s != [] && IsSpace(s[0]) then SkipSpaces(s[1..]) else s
  }

  /** The value of the leading digits of s, continuing a number whose digits so far make acc. */
  function LeadingDigits(s: string, acc: nat): nat {
    if s != [] && IsDigit(s[0]) then LeadingDigits(s[1..], 10 * acc + (s[0] - '0') as nat) else acc
  }

  /** atol: blanks, an optional sign, then digits up to the first other character. */
  function Atol(s: string): int {
    var t := SkipSpaces(s);
    if t != [] && t[0] == '-' then 0 - LeadingDigits(t[1..], 0)
    else if t != [] && t[0] == '+' then LeadingDigits(t[1..], 0)
    else LeadingDigits(t, 0)
  }

  function Pow10(w: nat): nat { if w == 0 then 1 else 10 * Pow10(w - 1) }

  lemma {:induction false} LeadingDigitsAppend(a: string, b: string, acc: nat)
    requires AllDigits(a)
    ensures LeadingDigits(a + b, acc) == LeadingDigits(b, LeadingDigits(a, acc))
  {
    if a == [] {
      assert a + b == b;
    } else {
      assert (a + b)[1..] == a[1..] + b;
      LeadingDigitsAppend(a[1..], b, 10 * acc + (a[0] - '0') as nat);
    }
  }

  lemma {:induction false} DecimalValue(n: nat)
    ensures LeadingDigits(Decimal(n), 0) == n
  {
    if n >= 10 {
      DecimalValue(n / 10);
      DecimalDigits(n / 10);
      LeadingDigitsAppend(Decimal(n / 10), [Digit(n % 10)], 0);
    }
  }

  lemma {:induction false} SkipBlanks(k: nat, s: string)
    requires s == [] || !IsSpace(s[0])
    ensures SkipSpaces(Blanks(k) + s) == s
  {
    if k == 0 {
      assert Blanks(0) + s == s;
    } else {
      assert (Blanks(k) + s)[1..] == Blanks(k - 1) + s;
      SkipBlanks(k - 1, s);
    }
  }

  /** Reading back what "%*d" wrote gives the number, whatever the width. */
  lemma {:induction false} AtolPadded(w: nat, n: nat)
    ensures Atol(Padded(w, n)) == n
  {
    var d := Decimal(n);
    DecimalDigits(n);
    SkipBlanks(if |d| < w then w - |d| else 0, d);
    DecimalValue(n);
  }

  lemma {:induction false} AtolDecimal(n: nat)
    ensures Atol(Decimal(n)) == n
  {
    DecimalDigits(n);
    DecimalValue(n);
  }

  lemma {:induction false} DecimalWidth(n: nat, w: nat)
    requires w >= 1
    ensures |Decimal(n)| <= w <==> n < Pow10(w)
  {
    if w == 1 {
      assert Pow10(1) == 10;
      if n >= 10 { DecimalDigits(n / 10); }
    } else if n >= 10 {
      DecimalWidth(n / 10, w - 1);
    } else {
      PowGrows(w);
    }
  }

  lemma {:induction false} PowGrows(w: nat)
    requires w >= 1
    ensures Pow10(w) >= 10
  {
    if w > 1 { PowGrows(w - 1); }
  }

  /** A field keeps its width exactly for the numbers that have at most w digits. */
  lemma {:induction false} PaddedWidth(w: nat, n: nat)
    requires w >= 1
    ensures |Padded(w, n)| == w <==> n < Pow10(w)
  {
    DecimalWidth(n, w);
  }

  /** Seven columns hold exactly the offsets up to PTR_MAX. */
  lemma PtrFieldWidth(v: nat)
    ensures |Padded(PTR_SZ, v)| == PTR_SZ <==> v <= PTR_MAX
  {
    PaddedWidth(PTR_SZ, v);
    assert Pow10(3) == 1000 && Pow10(7) == 10000 * Pow10(3);
  }

  /** Four columns hold every permitted index record length. */
  lemma LenFieldWidth(n: nat)
    requires n <= IDXLEN_MAX
    ensures |Padded(IDXLEN_SZ, n)| == IDXLEN_SZ
  {
    PaddedWidth(IDXLEN_SZ, n);
    assert Pow10(4) == 10000;
  }

  // ----- index record bodies -----

  /** What an index record says beside its chain pointer. */
  datatype Rec = Rec(key: string, datoff: nat, datlen: nat)

  /** Keys the format can carry: C strings without the separator. */
  predicate CleanKey(key: string) { SEP !in key && NUL !in key }

  /** "%s%c%lld%c%ld\n" */
  function BodyText(r: Rec): string {
    r.key + [SEP] + Decimal(r.datoff) + [SEP] + Decimal(r.datlen) + [NEWLINE]
  }

  function BodyLen(r: Rec): nat { |r.key| + |Decimal(r.datoff)| + |Decimal(r.datlen)| + 3 }

  /** A length db_writeidx accepts and _db_readidx does too. */
  predicate LengthOk(r: Rec) { IDXLEN_MIN <= BodyLen(r) <= IDXLEN_MAX }

  lemma BodyTextLen(r: Rec)
    ensures |BodyText(r)| == BodyLen(r)
  {
  }

  /** The record without its chain pointer: a length field and the body. */
  function RecText(r: Rec): string { Padded(IDXLEN_SZ, BodyLen(r)) + BodyText(r) }

  /** strchr, with |s| for "not found". */
  function IndexOf(s: string, c: char): (i: nat)
    ensures i <= |s|
    ensures forall k | 0 <= k < i :: s[k] != c
    ensures i < |s| ==> s[i] == c
  {
    if s == [] || s[0] == c then 0 else 1 + IndexOf(s[1..], c)
  }

  /** The C string held in a buffer: everything before the first null. */
  function CString(s: string): string { s[..IndexOf(s, NUL)] }

  datatype Error =
    | ReadError | BadIdxLen | MissingNewline | MissingFirstSep | MissingSecondSep
    | TooManySeps | NegativeOffset | BadDatLen

  datatype Parsed = Parsed(r: Rec) | Malformed(e: Error)

  /** The checks _db_readidx makes on the body of a record, in its order. */
  function ParseBody(raw: string): Parsed {
    if raw == [] || raw[|raw| - 1] != NEWLINE then Malformed(MissingNewline)
    else
      var text := CString(raw[..|raw| - 1]);
      var i := IndexOf(text, SEP);
      if i == |text| then Malformed(MissingFirstSep) else ParseData(text[..i], text[i + 1..])
  }

  function ParseData(key: string, rest: string): Parsed {
    var j := IndexOf(rest, SEP);
    if j == |rest| then Malformed(MissingSecondSep)
    else if SEP in rest[j + 1..] then Malformed(TooManySeps)
    else
      var off, len := Atol(rest[..j]), Atol(rest[j + 1..]);
      if off < 0 then Malformed(NegativeOffset)
      else if len <= 0 || len > DATLEN_MAX then Malformed(BadDatLen)
      else Parsed(Rec(key, off, len))
  }

  lemma IndexOfUnique(s: string, c: char, i: nat)
    requires i <= |s|
    requires forall k | 0 <= k < i :: s[k] != c
    requires i < |s| ==> s[i] == c
    ensures IndexOf(s, c) == i
  {
  }

  lemma CStringWhole(s: string)
    requires NUL !in s
    ensures CString(s) == s
  {
    IndexOfUnique(s, NUL, |s|);
  }

  /** Splitting at the first separator. */
  lemma SplitFirst(a: string, b: string)
    requires SEP !in a
    ensures var t := a + [SEP] + b;
            IndexOf(t, SEP) == |a| && t[..|a|] == a && t[|a| + 1..] == b
  {
    IndexOfUnique(a + [SEP] + b, SEP, |a|);
  }

  lemma ParseOfData(key: string, off: nat, len: nat)
    requires 1 <= len <= DATLEN_MAX
    ensures ParseData(key, Decimal(off) + [SEP] + Decimal(len)) == Parsed(Rec(key, off, len))
  {
    DecimalDigits(off);
    DecimalDigits(len);
    SplitFirst(Decimal(off), Decimal(len));
    AtolDecimal(off);
    AtolDecimal(len);
  }

  /** Round trip of an index record body. */
  lemma ParseOfBody(r: Rec)
    requires CleanKey(r.key) && 1 <= r.datlen <= DATLEN_MAX
    ensures ParseBody(BodyText(r)) == Parsed(r)
  {
    var rest := Decimal(r.datoff) + [SEP] + Decimal(r.datlen);
    var text := r.key + [SEP] + rest;
    assert BodyText(r) == text + [NEWLINE];
    assert NUL !in text by {
      DecimalDigits(r.datoff);
      DecimalDigits(r.datlen);
    }
    CStringWhole(text);
    hide Pow10;
    SplitFirst(r.key, rest);
    ParseOfData(r.key, r.datoff, r.datlen);
  }

  /** And no other key, and no other length, survives the trip. */
  lemma ParseOfBodyExactly(r: Rec)
    ensures ParseBody(BodyText(r)) == Parsed(r) <==> CleanKey(r.key) && 1 <= r.datlen <= DATLEN_MAX
  {
    if CleanKey(r.key) && 1 <= r.datlen <= DATLEN_MAX {
      ParseOfBody(r);
    }
  }

  // ----- what the texts say, position by position -----

  /** The number a text of digits denotes: each digit times ten to the number of digits after it. */
  function PlaceValue(s: string): nat
    requires forall i | 0 <= i < |s| :: '0' <= s[i] <= '9'
  {
    if s == [] then 0 else (s[0] as int - '0' as int) * Pow10(|s| - 1) + PlaceValue(s[1..])
  }

  lemma {:induction false} DigitsPlaceValue(s: string, acc: nat)
    requires AllDigits(s)
    ensures LeadingDigits(s, acc) == acc * Pow10(|s|) + PlaceValue(s)
  {
    if s != [] {
      DigitsPlaceValue(s[1..], 10 * acc + (s[0] - '0') as nat);
      Scaled(acc, (s[0] - '0') as nat, Pow10(|s| - 1));
    }
  }

  lemma Scaled(a: nat, d: nat, p: nat)
    ensures (10 * a + d) * p == a * (10 * p) + d * p
  {
  }

  /** "%d": decimal digits, the most significant first, none before it. */
  lemma {:induction false} DecimalIs(n: nat)
    ensures forall i | 0 <= i < |Decimal(n)| :: '0' <= Decimal(n)[i] <= '9'
    ensures |Decimal(n)| >= 1 && PlaceValue(Decimal(n)) == n && (n > 0 ==> Decimal(n)[0] != '0')
  {
    DecimalDigits(n);
    DecimalValue(n);
    DigitsPlaceValue(Decimal(n), 0);
    if n > 0 { NoLeadingZero(n); }
  }

  lemma {:induction false} NoLeadingZero(n: nat)
    requires n > 0
    ensures |Decimal(n)| >= 1 && Decimal(n)[0] != '0'
  {
    if n >= 10 { NoLeadingZero(n / 10); }
  }

  /** "%*d": those digits at the right end of the field, blanks before them. */
  lemma PaddedIs(w: nat, n: nat)
    ensures var t, d := Padded(w, n), |Decimal(n)|;
            && |t| == (if d < w then w else d) && t[|t| - d..] == Decimal(n)
            && forall i | 0 <= i < |t| - d :: t[i] == ' '
  {
  }

  /** atol skips white space, takes one sign, and reads digits up to the first other character. */
  lemma {:induction false} AtolIs(space: string, sign: string, digits: string, rest: string)
    requires forall i | 0 <= i < |space| :: space[i] == ' ' || '\t' <= space[i] <= '\r'
    requires sign == "" || sign == "+" || sign == "-"
    requires forall i | 0 <= i < |digits| :: '0' <= digits[i] <= '9'
    requires rest != [] ==> !('0' <= rest[0] <= '9')
    requires sign == "" && digits == "" && rest != [] ==>
               rest[0] != '+' && rest[0] != '-' && rest[0] != ' ' && !('\t' <= rest[0] <= '\r')
    ensures Atol(space + sign + digits + rest) == if sign == "-" then 0 - PlaceValue(digits) else PlaceValue(digits)
  {
    var t := sign + digits + rest;
    assert space + sign + digits + rest == space + t;
    SkipSpacesIs(space, t);
    LeadingDigitsAppend(digits, rest, 0);
    DigitsPlaceValue(digits, 0);
    if sign == "" { assert t == digits + rest; } else { assert t[1..] == digits + rest; }
  }

  lemma {:induction false} SkipSpacesIs(space: string, t: string)
    requires forall i | 0 <= i < |space| :: space[i] == ' ' || '\t' <= space[i] <= '\r'
    requires t == [] || !IsSpace(t[0])
    ensures SkipSpaces(space + t) == t
  {
    if space == [] {
      assert space + t == t;
    } else {
      assert (space + t)[1..] == space[1..] + t;
      SkipSpacesIs(space[1..], t);
    }
  }

  /** The body of a record: the key, a colon, the offset, a colon, the data length, a newline. */
  lemma BodyLayout(r: Rec)
    ensures var t, a, b := BodyText(r), |r.key|, |r.key| + 1 + |Decimal(r.datoff)|;
            && a < b < |t| - 1 && t[..a] == r.key && t[a] == ':' && t[b] == ':' && t[|t| - 1] == '\n'
            && t[a + 1..b] == Decimal(r.datoff) && t[b + 1..|t| - 1] == Decimal(r.datlen)
    ensures |BodyText(r)| == |r.key| + |Decimal(r.datoff)| + |Decimal(r.datlen)| + 3
    ensures LengthOk(r) <==> 6 <= |BodyText(r)| <= 1024
  {
    DecimalDigits(r.datoff);
    DecimalDigits(r.datlen);
  }

  /** Four columns of length come before it. */
  lemma RecLayout(r: Rec)
    requires LengthOk(r)
    ensures |RecText(r)| == 4 + |BodyText(r)| && RecText(r)[4..] == BodyText(r)
    ensures Atol(RecText(r)[..4]) == |BodyText(r)|
  {
    LenFieldWidth(BodyLen(r));
    AtolPadded(IDXLEN_SZ, BodyLen(r));
    assert RecText(r)[..4] == Padded(IDXLEN_SZ, BodyLen(r));
  }

  /** Positions a and b hold the only two colons of text. */
  predicate TwoColons(text: string, a: nat, b: nat) {
    && a < b < |text| && text[a] == ':' && text[b] == ':'
    && forall k | 0 <= k < |text| && k != a && k != b :: text[k] != ':'
  }

  /** The text is that of r, taken apart at its only two colons. */
  predicate TakenApart(text: string, a: nat, b: nat, r: Rec) {
    && TwoColons(text, a, b)
    && r.key == text[..a] && Atol(text[a + 1..b]) == r.datoff && Atol(text[b + 1..]) == r.datlen
    && 1 <= r.datlen <= 1024
  }

  /** What is before the last character, up to a null. */
  function Line(raw: string): string
    requires raw != []
  {
    CString(raw[..|raw| - 1])
  }

  /** A body is accepted exactly when it ends in a newline and what is before it, up to a null, has exactly two
      colons, with an offset that is not negative and a data length of 1 to 1024 after them; it is then taken
      apart at the colons. */
  lemma ParseIs(raw: string, r: Rec)
    ensures ParseBody(raw) == Parsed(r) <==>
              raw != [] && raw[|raw| - 1] == '\n' && exists a, b :: TakenApart(Line(raw), a, b, r)
  {
    hide Atol, TakenApart, IndexOf;
    if raw != [] && raw[|raw| - 1] == '\n' { TextIs(Line(raw), r); }
  }

  /** The same for the text before the newline. */
  lemma TextIs(text: string, r: Rec)
    ensures var i := IndexOf(text, SEP);
            (i < |text| && ParseData(text[..i], text[i + 1..]) == Parsed(r))
            <==> exists a, b :: TakenApart(text, a, b, r)
  {
    var a := IndexOf(text, SEP);
    if c, d :| TakenApart(text, c, d, r) { FirstColon(text, c, d); }
    if a < |text| {
      var rest := text[a + 1..];
      var b := a + 1 + IndexOf(rest, SEP);
      assert forall k | a < k < b :: text[k] == rest[k - a - 1];
      SecondColon(text, a, b, r);
      hide Atol, IndexOf, TakenApart;
    }
  }

  /** Where there are just two colons the search finds them. */
  lemma FirstColon(text: string, c: nat, d: nat)
    requires TwoColons(text, c, d)
    ensures IndexOf(text, SEP) == c && IndexOf(text[c + 1..], SEP) == d - c - 1
  {
    IndexOfUnique(text, SEP, c);
    IndexOfUnique(text[c + 1..], SEP, d - c - 1);
  }

  lemma SecondColon(text: string, a: nat, b: nat, r: Rec)
    requires a == IndexOf(text, SEP) < |text| && b == a + 1 + IndexOf(text[a + 1..], SEP)
    ensures ParseData(text[..a], text[a + 1..]) == Parsed(r) <==> exists c, d :: TakenApart(text, c, d, r)
  {
    var rest := text[a + 1..];
    forall c: nat, d: nat | TakenApart(text, c, d, r) ensures c == a && d == b { FirstColon(text, c, d); }
    if b < |text| {
      ColonsAfter(text, a, b);
      AtColons(text, a, b, r);
    }
    hide ParseData, TakenApart;
  }

  lemma AtColons(text: string, a: nat, b: nat, r: Rec)
    requires a < b < |text| && b == a + 1 + IndexOf(text[a + 1..], SEP)
    requires TwoColons(text, a, b) <==> SEP !in text[b + 1..]
    ensures ParseData(text[..a], text[a + 1..]) == Parsed(r) <==> TakenApart(text, a, b, r)
  {
    hide Atol, IndexOf, TwoColons;
    var rest := text[a + 1..];
    assert rest[..b - a - 1] == text[a + 1..b] && rest[b - a..] == text[b + 1..];
  }

  lemma ColonsAfter(text: string, a: nat, b: nat)
    requires a < b < |text| && text[a] == ':' && text[b] == ':'
    requires (forall k | 0 <= k < a :: text[k] != ':') && forall k | a < k < b :: text[k] != ':'
    ensures TwoColons(text, a, b) <==> SEP !in text[b + 1..]
  {
    if !TwoColons(text, a, b) {
      var k :| 0 <= k < |text| && k != a && k != b && text[k] == ':';
      assert text[b + 1..][k - b - 1] == SEP;
    }
  }
}
