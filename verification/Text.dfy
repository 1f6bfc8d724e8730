/** Python's string operations on ASCII text, and the two text helpers of the
    routes and the matcher that are built from them: the country-list parser
    and the JSON block extractor. */
module Text {
  import opened Wrappers

  // ---------- characters ----------

  /** `str.isspace` on ASCII: tab to carriage return, the four separators, space. */
  predicate IsSpace(c: char) {
    9 <= c as int <= 13 || 28 <= c as int <= 32
  }

  predicate IsDigit(c: char) {
    '0' <= c <= '9'
  }

  function ToLower(c: char): char {
    if 'A' <= c <= 'Z' then (c as int + 32) as char else c
  }

  function ToUpper(c: char): char {
    if 'a' <= c <= 'z' then (c as int - 32) as char else c
  }

  function Lower(s: string): string {
    seq(|s|, i requires 0 <= i < |s| => ToLower(s[i]))
  }

  function Upper(s: string): string {
    seq(|s|, i requires 0 <= i < |s| => ToUpper(s[i]))
  }

  function Capitals(): string {
    "ABCDEFGHIJKLMNOPQRSTUVWXYZ"
  }

  function Smalls(): string {
    "abcdefghijklmnopqrstuvwxyz"
  }

  lemma LetterCode(k: nat)
    requires k < 26
    ensures |Capitals()| == |Smalls()| == 26
    ensures Capitals()[k] as int == 65 + k && Smalls()[k] as int == 97 + k
  {
  }

  /** Each of the 26 letters has its partner of the other case. */
  lemma LetterCase(k: nat)
    requires k < 26 && |Capitals()| == |Smalls()| == 26
    ensures Lower([Capitals()[k]]) == [Smalls()[k]] == Lower([Smalls()[k]])
    ensures Upper([Smalls()[k]]) == [Capitals()[k]] == Upper([Capitals()[k]])
  {
    LetterCode(k);
    hide Capitals, Smalls;
  }

  lemma LettersOf(c: char)
    ensures 65 <= c as int <= 90 ==> c in Capitals()
    ensures 97 <= c as int <= 122 ==> c in Smalls()
  {
    if 65 <= c as int <= 90 {
      LetterCode(c as int - 65);
      assert Capitals()[c as int - 65] == c;
    }
    if 97 <= c as int <= 122 {
      LetterCode(c as int - 97);
      assert Smalls()[c as int - 97] == c;
    }
  }

  /** Nothing else has a case. */
  lemma CaselessStay(c: char)
    requires c !in Capitals() && c !in Smalls()
    ensures Lower([c]) == [c] == Upper([c])
  {
    LettersOf(c);
    hide Capitals, Smalls;
  }

  /** A text changes case letter by letter. */
  lemma CaseConcat(s: string, t: string)
    ensures Lower(s + t) == Lower(s) + Lower(t) && Upper(s + t) == Upper(s) + Upper(t)
    ensures Lower("") == "" == Upper("")
  {
  }

  // ---------- trimming ----------

  function TrimLeft(s: string, drop: char -> bool): string {
    if s != [] && drop(s[0]) then TrimLeft(s[1..], drop) else s
  }

  function TrimRight(s: string, drop: char -> bool): string {
    if s != [] && drop(s[|s| - 1]) then TrimRight(s[..|s| - 1], drop) else s
  }

  function Trim(s: string, drop: char -> bool): string {
    TrimRight(TrimLeft(s, drop), drop)
  }

  function Strip(s: string): string {
    Trim(s, IsSpace)
  }

  /** No character to drop at either end. */
  predicate Trimmed(s: string, drop: char -> bool) {
    s != [] ==> !drop(s[0]) && !drop(s[|s| - 1])
  }

  lemma {:induction false} TrimLeftShape(s: string, drop: char -> bool)
    ensures |TrimLeft(s, drop)| <= |s|
    ensures TrimLeft(s, drop) == s[|s| - |TrimLeft(s, drop)|..]
    ensures TrimLeft(s, drop) != [] ==> !drop(TrimLeft(s, drop)[0])
  {
    if s != [] && drop(s[0]) {
      TrimLeftShape(s[1..], drop);
    }
  }

  lemma {:induction false} TrimRightShape(s: string, drop: char -> bool)
    ensures |TrimRight(s, drop)| <= |s|
    ensures TrimRight(s, drop) == s[..|TrimRight(s, drop)|]
    ensures TrimRight(s, drop) != [] ==> !drop(TrimRight(s, drop)[|TrimRight(s, drop)| - 1])
  {
    if s != [] && drop(s[|s| - 1]) {
      TrimRightShape(s[..|s| - 1], drop);
    }
  }

  lemma TrimShape(s: string, drop: char -> bool)
    ensures Trimmed(Trim(s, drop), drop)
    ensures exists i, j | 0 <= i <= j <= |s| :: Trim(s, drop) == s[i..j]
  {
    var t := TrimLeft(s, drop);
    TrimLeftShape(s, drop);
    TrimRightShape(t, drop);
    var i := |s| - |t|;
    var j := i + |Trim(s, drop)|;
    assert Trim(s, drop) == s[i..j];
  }

  lemma {:induction false} TrimLeftDrops(lead: string, s: string, drop: char -> bool)
    requires (forall c | c in lead :: drop(c)) && (s != [] ==> !drop(s[0]))
    ensures TrimLeft(lead + s, drop) == s
  {
    if lead == [] {
      assert lead + s == s;
    } else {
      assert lead[0] in lead;
      assert (lead + s)[1..] == lead[1..] + s;
      TrimLeftDrops(lead[1..], s, drop);
    }
  }

  lemma {:induction false} TrimRightDrops(s: string, trail: string, drop: char -> bool)
    requires (forall c | c in trail :: drop(c)) && (s != [] ==> !drop(s[|s| - 1]))
    ensures TrimRight(s + trail, drop) == s
  {
    if trail == [] {
      assert s + trail == s;
    } else {
      assert trail[|trail| - 1] in trail;
      assert (s + trail)[..|s + trail| - 1] == s + trail[..|trail| - 1];
      TrimRightDrops(s, trail[..|trail| - 1], drop);
    }
  }

  /** Trimming takes away what is to be dropped at both ends and nothing more. */
  lemma TrimRecovers(lead: string, s: string, trail: string, drop: char -> bool)
    requires (forall c | c in lead :: drop(c)) && (forall c | c in trail :: drop(c)) && Trimmed(s, drop)
    ensures Trim(lead + s + trail, drop) == s
  {
    if s == [] {
      TrimLeftAll(lead + trail, drop);
      assert lead + s + trail == lead + trail;
    } else {
      assert lead + s + trail == lead + (s + trail);
      TrimLeftDrops(lead, s + trail, drop);
      TrimRightDrops(s, trail, drop);
    }
  }

  lemma {:induction false} TrimLeftAll(s: string, drop: char -> bool)
    requires forall c | c in s :: drop(c)
    ensures TrimLeft(s, drop) == []
  {
    if s != [] {
      assert s[0] in s;
      TrimLeftAll(s[1..], drop);
    }
  }

  lemma {:induction false} TrimRightAll(s: string, drop: char -> bool)
    ensures TrimRight(s, drop) == [] <==> forall c | c in s :: drop(c)
  {
    if s != [] {
      var front, last := s[..|s| - 1], s[|s| - 1];
      assert s == front + [last] && last in s;
      TrimRightAll(front, drop);
    }
  }

  /** Nothing is left exactly if there was nothing but what is to be dropped. */
  lemma TrimToNothing(s: string, drop: char -> bool)
    ensures Trim(s, drop) == [] <==> forall c | c in s :: drop(c)
  {
    TrimLeftShape(s, drop);
    TrimRightAll(TrimLeft(s, drop), drop);
    if forall c | c in s :: drop(c) {
      TrimLeftAll(s, drop);
    } else if TrimLeft(s, drop) == [] {
      TrimLeftNothing(s, drop);
      assert false;
    } else {
      assert TrimLeft(s, drop)[0] in TrimLeft(s, drop);
    }
  }

  lemma {:induction false} TrimLeftNothing(s: string, drop: char -> bool)
    requires TrimLeft(s, drop) == []
    ensures forall c | c in s :: drop(c)
  {
    if s != [] {
      TrimLeftNothing(s[1..], drop);
      assert s == [s[0]] + s[1..];
    }
  }

  /** Tab, line feed, vertical tab, form feed, carriage return, the four separators
      and the space are what `strip` takes away. */
  lemma StripRecovers(lead: string, s: string, trail: string)
    requires forall c | c in lead + trail :: 9 <= c as int <= 13 || 28 <= c as int <= 32
    requires s != [] ==> !(9 <= s[0] as int <= 13 || 28 <= s[0] as int <= 32)
                         && !(9 <= s[|s| - 1] as int <= 13 || 28 <= s[|s| - 1] as int <= 32)
    ensures Strip(lead + s + trail) == s
  {
    assert forall c | c in lead :: c in lead + trail;
    assert forall c | c in trail :: c in lead + trail;
    TrimRecovers(lead, s, trail, IsSpace);
  }

  // ---------- splitting and joining ----------

  function Split(s: string, sep: char): (parts: seq<string>)
    ensures |parts| >= 1
  {
    if s == [] then [""]
    else
      var rest := Split(s[1..], sep);
      if s[0] == sep then [""] + rest else [[s[0]] + rest[0]] + rest[1..]
  }

  function Join(parts: seq<string>, sep: char): string {
    if parts == [] then ""
    else if |parts| == 1 then parts[0]
    else parts[0] + [sep] + Join(parts[1..], sep)
  }

  lemma {:induction false} SplitHead(p: string, t: string, sep: char)
    requires sep !in p
    ensures Split(p, sep) == [p]
    ensures Split(p + [sep] + t, sep) == [p] + Split(t, sep)
  {
    if p == [] {
      assert p + [sep] + t == [sep] + t;
    } else {
      SplitHead(p[1..], t, sep);
      assert [p[0]] + p[1..] == p;
      assert (p + [sep] + t)[1..] == p[1..] + [sep] + t;
    }
  }

  /** Splitting undoes joining on any non-empty list of separator-free parts. */
  lemma {:induction false} SplitJoin(parts: seq<string>, sep: char)
    requires parts != []
    requires forall p | p in parts :: sep !in p
    ensures Split(Join(parts, sep), sep) == parts
  {
    if |parts| == 1 {
      SplitHead(parts[0], "", sep);
    } else {
      SplitJoin(parts[1..], sep);
      SplitHead(parts[0], Join(parts[1..], sep), sep);
      assert parts == [parts[0]] + parts[1..];
    }
  }

  lemma {:induction false} SplitPartsSepFree(s: string, sep: char)
    ensures forall p | p in Split(s, sep) :: sep !in p
  {
    if s != [] {
      SplitPartsSepFree(s[1..], sep);
    }
  }

  // ---------- country lists ----------

  /** The comprehension over the comma-separated parts. */
  function Codes(parts: seq<string>): seq<string> {
    if parts == [] then []
    else (if Strip(parts[0]) != [] then [Upper(Strip(parts[0]))] else []) + Codes(parts[1..])
  }

  function ParseCountries(value: Option<string>): seq<string> {
    if value.None? || value.value == "" then [] else Codes(Split(value.value, ','))
  }

  /** What a well-formed country code looks like to the parser. */
  ghost predicate IsCode(c: string) {
    c != [] && Trimmed(c, IsSpace) && ',' !in c && forall i | 0 <= i < |c| :: !('a' <= c[i] <= 'z')
  }

  lemma {:induction false} TrimOfTrimmed(s: string, drop: char -> bool)
    requires Trimmed(s, drop)
    ensures Trim(s, drop) == s
  {
  }

  lemma {:induction false} CodesOfCodes(codes: seq<string>)
    requires forall c | c in codes :: IsCode(c)
    ensures Codes(codes) == codes
  {
    if codes != [] {
      var c := codes[0];
      assert IsCode(c);
      TrimOfTrimmed(c, IsSpace);
      assert Upper(c) == c;
      CodesOfCodes(codes[1..]);
    }
  }

  /** Joining codes with commas and parsing gives the codes back. */
  lemma ParseCountriesJoin(codes: seq<string>)
    requires forall c | c in codes :: IsCode(c)
    ensures ParseCountries(Some(Join(codes, ','))) == codes
  {
    if codes != [] {
      assert Join(codes, ',') != "" by {
        assert IsCode(codes[0]);
      }
      SplitJoin(codes, ',');
      CodesOfCodes(codes);
    }
  }

  lemma UpperStripIsCode(p: string)
    requires ',' !in p && Strip(p) != []
    ensures IsCode(Upper(Strip(p)))
  {
    TrimShape(p, IsSpace);
    var u := Upper(Strip(p));
    forall i | 0 <= i < |u| ensures u[i] != ',' && !('a' <= u[i] <= 'z') {
      assert Strip(p)[i] in p;
    }
  }

  lemma {:induction false} CodesAreCodes(parts: seq<string>)
    requires forall p | p in parts :: ',' !in p
    ensures forall c | c in Codes(parts) :: IsCode(c)
  {
    if parts != [] {
      CodesAreCodes(parts[1..]);
      if Strip(parts[0]) != [] {
        UpperStripIsCode(parts[0]);
      }
    }
  }

  /** Whatever text is parsed, the result is a list of well-formed codes, and
      parsing its comma-joined form again changes nothing. */
  lemma ParseCountriesNormalises(value: Option<string>)
    ensures forall c | c in ParseCountries(value) :: IsCode(c)
    ensures ParseCountries(Some(Join(ParseCountries(value), ','))) == ParseCountries(value)
  {
    if value.Some? && value.value != "" {
      SplitPartsSepFree(value.value, ',');
      CodesAreCodes(Split(value.value, ','));
    }
    ParseCountriesJoin(ParseCountries(value));
  }

  lemma {:induction false} CodesConcat(a: seq<string>, b: seq<string>)
    ensures Codes(a + b) == Codes(a) + Codes(b)
  {
    if a == [] {
      assert a + b == b;
    } else {
      assert (a + b)[1..] == a[1..] + b;
      CodesConcat(a[1..], b);
    }
  }

  lemma SplitCons(c: char, s: string, sep: char)
    ensures Split([c] + s, sep) ==
            var rest := Split(s, sep);
            if c == sep then [""] + rest else [[c] + rest[0]] + rest[1..]
  {
    assert ([c] + s)[1..] == s;
  }

  lemma {:induction false} SplitAtSeparator(a: string, b: string, sep: char)
    ensures Split(a + [sep] + b, sep) == Split(a, sep) + Split(b, sep)
  {
    if a == [] {
      assert a + [sep] + b == [sep] + b;
      SplitCons(sep, b, sep);
    } else {
      var c, t := a[0], a[1..];
      hide Split;
      SplitAtSeparator(t, b, sep);
      SplitCons(c, t + [sep] + b, sep);
      SplitCons(c, t, sep);
      assert a == [c] + t && a + [sep] + b == [c] + (t + [sep] + b);
      FirstOfConcat(Split(t, sep), Split(b, sep), c);
    }
  }

  lemma FirstOfConcat(rest: seq<string>, more: seq<string>, c: char)
    requires rest != []
    ensures [[c] + (rest + more)[0]] + (rest + more)[1..] == [[c] + rest[0]] + rest[1..] + more
    ensures [""] + (rest + more) == [""] + rest + more
  {
  }

  /** The parser works part by part: commas separate, a blank part gives nothing,
      any other part its trimmed upper-case text. */
  lemma ParseCountriesParts(a: string, b: string)
    ensures ParseCountries(None) == [] && ParseCountries(Some("")) == []
    ensures ParseCountries(Some(a + "," + b)) == ParseCountries(Some(a)) + ParseCountries(Some(b))
    ensures ',' !in a ==> ParseCountries(Some(a)) == if Strip(a) == "" then [] else [Upper(Strip(a))]
  {
    SplitAtSeparator(a, b, ',');
    CodesConcat(Split(a, ','), Split(b, ','));
    assert Strip("") == "";
    if ',' !in a {
      SplitHead(a, "", ',');
      assert Codes([a]) == if Strip(a) == "" then [] else [Upper(Strip(a))];
    }
  }

  // ---------- JSON block ----------

  /** `str.find`: the first index of `c`, or -1. */
  function Find(s: string, c: char): (i: int)
    ensures -1 <= i < |s|
    ensures i == -1 <==> c !in s
    ensures i >= 0 ==> s[i] == c && c !in s[..i]
  {
    if s == [] then -1
    else if s[0] == c then 0
    else
      var r := Find(s[1..], c);
      assert s == [s[0]] + s[1..];
      assert r >= 0 ==> s[..r + 1] == [s[0]] + s[1..][..r];
      if r == -1 then -1 else r + 1
  }

  /** `str.rfind`: the last index of `c`, or -1. */
  function FindLast(s: string, c: char): (i: int)
    ensures -1 <= i < |s|
    ensures i == -1 <==> c !in s
    ensures i >= 0 ==> s[i] == c && c !in s[i + 1..]
  {
    if s == [] then -1
    else if s[|s| - 1] == c then |s| - 1
    else
      var r := FindLast(s[..|s| - 1], c);
      assert s == s[..|s| - 1] + [s[|s| - 1]];
      assert r >= 0 ==> s[r + 1..] == s[..|s| - 1][r + 1..] + [s[|s| - 1]];
      r
  }

  lemma {:induction false} FindAt(s: string, c: char, i: nat)
    requires i < |s| && s[i] == c && c !in s[..i]
    ensures Find(s, c) == i
  {
    if i > 0 {
      assert s[..i] == [s[0]] + s[1..][..i - 1];
      FindAt(s[1..], c, i - 1);
    }
  }

  lemma {:induction false} FindLastAt(s: string, c: char, i: nat)
    requires i < |s| && s[i] == c && c !in s[i + 1..]
    ensures FindLast(s, c) == i
  {
    if i < |s| - 1 {
      var t := s[..|s| - 1];
      assert s[i + 1..] == t[i + 1..] + [s[|s| - 1]];
      FindLastAt(t, c, i);
    }
  }

  function ExtractJson(text: string): string {
    var start := Find(text, '{');
    var end := FindLast(text, '}');
    if start == -1 || end == -1 || end < start then "{}" else text[start..end + 1]
  }

  ghost predicate IsBlock(s: string) {
    |s| >= 2 && s[0] == '{' && s[|s| - 1] == '}'
  }

  /** A block wrapped in a prefix without '{' and a suffix without '}' is
      recovered exactly. */
  lemma ExtractJsonRecovers(prefix: string, block: string, suffix: string)
    requires IsBlock(block) && '{' !in prefix && '}' !in suffix
    ensures ExtractJson(prefix + block + suffix) == block
  {
    var text := prefix + block + suffix;
    FindAt(text, '{', |prefix|);
    FindLastAt(text, '}', |prefix| + |block| - 1);
    assert text[|prefix|..|prefix| + |block|] == block;
  }

  /** Any text whatever gives a block, and extracting again returns it unchanged. */
  lemma ExtractJsonIdempotent(text: string)
    ensures IsBlock(ExtractJson(text))
    ensures ExtractJson(ExtractJson(text)) == ExtractJson(text)
  {
    var r := ExtractJson(text);
    assert IsBlock(r);
    ExtractJsonRecovers("", r, "");
    assert "" + r + "" == r;
  }

  // ---------- decimal numbers ----------

  function Digit(d: nat): char
    requires d < 10
  {
    ('0' as int + d) as char
  }

  /** `str(n)` for a natural number. */
  function Decimal(n: nat): (s: string)
    ensures s != []
  {
    if n < 10 then [Digit(n)] else Decimal(n / 10) + [Digit(n % 10)]
  }

  predicate IsDigits(s: string) {
    s != [] && forall i | 0 <= i < |s| :: IsDigit(s[i])
  }

  /** `int(s)` on a text of digits. */
  function ToNat(s: string): nat
    requires forall i | 0 <= i < |s| :: IsDigit(s[i])
  {
    if s == [] then 0
    else
      var last := s[|s| - 1];
      assert IsDigit(last);
      10 * ToNat(s[..|s| - 1]) + (last as int - '0' as int)
  }

  /** Reading a number's decimal text gives the number back, so the text
      determines it. */
  lemma {:induction false} DecimalRoundTrip(n: nat)
    ensures IsDigits(Decimal(n)) && ToNat(Decimal(n)) == n
  {
    if n < 10 {
      assert Decimal(n)[..0] == [];
    } else {
      DecimalRoundTrip(n / 10);
      var s := Decimal(n);
      assert s[..|s| - 1] == Decimal(n / 10);
    }
  }

  /** A number is written by writing its tens and then the digit of its units. */
  lemma DecimalDigits(tens: nat, units: nat)
    requires units < 10
    ensures Decimal(10 * tens + units) == (if tens == 0 then "" else Decimal(tens)) + ["0123456789"[units]]
  {
    var n := 10 * tens + units;
    assert n / 10 == tens && n % 10 == units;
    assert "0123456789"[units] as int == 48 + units;
  }

  /** Leading zeros. */
  function Zeros(z: nat): string {
    seq(z, i => '0')
  }

  /** The text is a numeral for the number. */
  ghost predicate Denotes(text: string, n: nat) {
    exists z: nat :: text == Zeros(z) + Decimal(n)
  }

  lemma {:induction false} ToNatIgnoresZeros(z: nat, s: string)
    requires IsDigits(s)
    ensures IsDigits(Zeros(z) + s) && ToNat(Zeros(z) + s) == ToNat(s)
    decreases |s|
  {
    var t := Zeros(z) + s;
    assert forall i | 0 <= i < |t| :: IsDigit(t[i]);
    assert t[..|t| - 1] == Zeros(z) + s[..|s| - 1];
    if |s| == 1 {
      assert Zeros(z) + s[..0] == Zeros(z);
      ZerosAreZero(z);
    } else {
      ToNatIgnoresZeros(z, s[..|s| - 1]);
    }
  }

  lemma {:induction false} ZerosAreZero(z: nat)
    ensures (forall i | 0 <= i < z :: IsDigit(Zeros(z)[i])) && ToNat(Zeros(z)) == 0
  {
    if z > 0 {
      ZerosAreZero(z - 1);
      assert Zeros(z)[..z - 1] == Zeros(z - 1);
    }
  }

  /** A text of digits is the numeral of the number read from it, and no other text
      is a numeral. */
  lemma DigitsDenote(text: string, n: nat)
    ensures Denotes(text, n) <==> IsDigits(text) && ToNat(text) == n
  {
    if z: nat :| text == Zeros(z) + Decimal(n) {
      DecimalRoundTrip(n);
      ToNatIgnoresZeros(z, Decimal(n));
    }
    if IsDigits(text) && ToNat(text) == n {
      NumeralOf(text);
    }
  }

  lemma NumeralStep(front: string, last: char, m: nat, z: nat)
    requires IsDigit(last) && front == Zeros(z) + Decimal(m)
    ensures Denotes(front + [last], 10 * m + (last as int - '0' as int))
  {
    var n := 10 * m + (last as int - '0' as int);
    DecimalStep(m, last);
    if m == 0 {
      assert front + [last] == Zeros(z + 1) + [last];
      assert front + [last] == Zeros(z + 1) + Decimal(n);
    } else {
      hide Zeros, Decimal;
      assert front + [last] == Zeros(z) + Decimal(n);
    }
  }

  lemma DecimalStep(m: nat, c: char)
    requires IsDigit(c)
    ensures Decimal(10 * m + (c as int - '0' as int)) == (if m == 0 then "" else Decimal(m)) + [c]
  {
    var d := c as int - '0' as int;
    assert (10 * m + d) / 10 == m && (10 * m + d) % 10 == d && Digit(d) == c;
  }

  lemma OneDigit(c: char)
    requires IsDigit(c)
    ensures Denotes([c], ToNat([c]))
  {
    var d := c as int - '0' as int;
    assert [c][..0] == [] && Digit(d) == c;
    assert ToNat([c]) == d by {
      assert ToNat([c][..0]) == 0;
    }
    assert Decimal(d) == [c];
    assert [c] == Zeros(0) + Decimal(ToNat([c]));
  }

  lemma ToNatStep(front: string, last: char)
    requires IsDigits(front) && IsDigit(last)
    ensures IsDigits(front + [last]) && ToNat(front + [last]) == 10 * ToNat(front) + (last as int - '0' as int)
  {
    assert (front + [last])[..|front + [last]| - 1] == front;
  }

  lemma {:induction false} NumeralOf(text: string)
    requires IsDigits(text)
    ensures Denotes(text, ToNat(text))
  {
    var front, last := text[..|text| - 1], text[|text| - 1];
    assert IsDigit(last) && text == front + [last] && (front != [] ==> IsDigits(front));
    hide ToNat, Decimal, Zeros, IsDigit, IsDigits;
    if front == [] {
      assert text == [last];
      OneDigit(last);
    } else {
      NumeralOf(front);
      var z: nat :| front == Zeros(z) + Decimal(ToNat(front));
      NumeralStep(front, last, ToNat(front), z);
      ToNatStep(front, last);
    }
  }
}
