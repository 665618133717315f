/** Secret names, the ordered `name NUL version` keys of the versions table, and the AAD. */
module Keys {
  import opened Base

  const NUL: char := '\0'
  const SOH: char := '\U{1}'
  const MAX_SECRET_NAME_LEN: nat := 255
  const MIN_SECRET_VERSION: int := 1
  const VERSION_FIELD_WIDTH: nat := 10

  // ----- names and versions -----

  predicate NameChar(c: char) {
    'a' <= c <= 'z' || 'A' <= c <= 'Z' || '0' <= c <= '9' || c in "-_/."
  }

  /** Only ASCII characters pass, so the byte length of the source is the character count. */
  predicate ValidName(name: string) {
    name != [] && |name| <= MAX_SECRET_NAME_LEN && forall i :: 0 <= i < |name| ==> NameChar(name[i])
  }

  predicate ValidVersion(version: I32) {
    version >= MIN_SECRET_VERSION
  }

  // ----- decimal digits -----

  predicate IsDigit(c: char) {
    '0' <= c <= '9'
  }

  predicate AllDigits(s: string) {
    forall i :: 0 <= i < |s| ==> IsDigit(s[i])
  }

  function Digit(d: nat): (c: char)
    requires d < 10
    ensures IsDigit(c) && DigitValue(c) == d
  {
    (('0' as int) + d) as char
  }

  function DigitValue(c: char): nat
    requires IsDigit(c)
  {
    (c as int) - ('0' as int)
  }

  function Decimal(n: nat): (s: string)
    ensures AllDigits(s) && s != []
  {
    if n < 10 then [Digit(n)] else Decimal(n / 10) + [Digit(n % 10)]
  }

  function PadLeft(s: string, width: nat): (r: string)
    ensures AllDigits(s) ==> AllDigits(r)
    ensures |r| == if |s| < width then width else |s|
    decreases width - |s|
  {
    if |s| >= width then s else PadLeft("0" + s, width)
  }

  function Pow10(k: nat): (p: nat)
    ensures p > 0
  {
    if k == 0 then 1 else 10 * Pow10(k - 1)
  }

  /** The number a digit string denotes. */
  function Value(s: string): nat
    requires AllDigits(s)
  {
    if s == [] then 0 else DigitValue(s[0]) * Pow10(|s| - 1) + Value(s[1..])
  }

  lemma ScaleMono(d: nat, p: nat)
    requires d <= 9
    ensures d * p <= 9 * p
  {
  }

  lemma {:induction false} ValueBound(s: string)
    requires AllDigits(s)
    ensures Value(s) < Pow10(|s|)
  {
    if s != [] {
      ValueBound(s[1..]);
      ScaleMono(DigitValue(s[0]), Pow10(|s| - 1));
    }
  }

  lemma {:induction false} ValueAppend(s: string, c: char)
    requires AllDigits(s) && IsDigit(c)
    ensures AllDigits(s + [c])
    ensures Value(s + [c]) == 10 * Value(s) + DigitValue(c)
  {
    if s == [] {
      assert s + [c] == [c];
      assert [c][1..] == [];
    } else {
      ValueAppend(s[1..], c);
      ValueAppendStep(s, c);
    }
  }

  lemma LeadingTerm(s: string)
    requires s != [] && AllDigits(s)
    ensures Value(s) == DigitValue(s[0]) * Pow10(|s| - 1) + Value(s[1..])
  {
  }

  lemma ScaleByTen(d: nat, p: nat)
    ensures d * (10 * p) == 10 * (d * p)
  {
  }

  lemma ValueAppendStep(s: string, c: char)
    requires s != [] && AllDigits(s) && IsDigit(c) && AllDigits(s[1..] + [c])
    requires Value(s[1..] + [c]) == 10 * Value(s[1..]) + DigitValue(c)
    ensures AllDigits(s + [c]) && Value(s + [c]) == 10 * Value(s) + DigitValue(c)
  {
    var t := s + [c];
    assert t[1..] == s[1..] + [c] && t[0] == s[0];
    LeadingTerm(s);
    LeadingTerm(t);
    ScaleByTen(DigitValue(s[0]), Pow10(|s| - 1));
    assert Pow10(|t| - 1) == 10 * Pow10(|s| - 1);
  }

  lemma {:induction false} DecimalValue(n: nat)
    ensures Value(Decimal(n)) == n
  {
    if n < 10 {
      assert [Digit(n)][1..] == [];
    } else {
      DecimalValue(n / 10);
      ValueAppend(Decimal(n / 10), Digit(n % 10));
    }
  }

  lemma {:induction false} PadValue(s: string, width: nat)
    requires AllDigits(s)
    ensures Value(PadLeft(s, width)) == Value(s)
    decreases width - |s|
  {
    if |s| < width {
      assert ("0" + s)[1..] == s;
      PadValue("0" + s, width);
    }
  }

  lemma {:induction false} DecimalLength(n: nat, k: nat)
    requires k > 0 && n < Pow10(k)
    ensures |Decimal(n)| <= k
  {
    if n >= 10 {
      DecimalLength(n / 10, k - 1);
    }
  }

  /** A smaller leading digit decides, whatever follows it. */
  lemma LeadingDigit(x: nat, y: nat, p: nat, u: nat, w: nat)
    requires x < y && u < p
    ensures x * p + u < y * p + w
  {
    assert y * p == x * p + (y - x) * p;
    ScaleUp(y - x, p);
  }

  lemma ScaleUp(d: nat, p: nat)
    requires d >= 1
    ensures d * p >= p
  {
  }

  /** On digit strings of one length, key order is numeric order. */
  lemma {:induction false} DigitOrder(a: string, b: string)
    requires AllDigits(a) && AllDigits(b) && |a| == |b|
    ensures LexLe(a, b) <==> Value(a) <= Value(b)
  {
    if a != [] {
      DigitOrder(a[1..], b[1..]);
      ValueBound(a[1..]);
      ValueBound(b[1..]);
      DigitOrderStep(DigitValue(a[0]), DigitValue(b[0]), Pow10(|a| - 1), Value(a[1..]), Value(b[1..]));
      assert Value(a) == DigitValue(a[0]) * Pow10(|a| - 1) + Value(a[1..]);
      assert Value(b) == DigitValue(b[0]) * Pow10(|a| - 1) + Value(b[1..]);
    }
  }

  lemma DigitOrderStep(x: nat, y: nat, p: nat, u: nat, w: nat)
    requires u < p && w < p
    ensures x * p + u <= y * p + w <==> x < y || (x == y && u <= w)
  {
    if x < y {
      LeadingDigit(x, y, p, u, w);
    } else if y < x {
      LeadingDigit(y, x, p, w, u);
    }
  }

  lemma DigitsEqual(a: string, b: string)
    requires AllDigits(a) && AllDigits(b) && |a| == |b| && Value(a) == Value(b)
    ensures a == b
  {
    DigitOrder(a, b);
    DigitOrder(b, a);
    LexAntisym(a, b);
  }

  // ----- version keys -----

  /** `{version:010}`: zero padded to ten places, the sign counting as one of them. */
  function VersionField(version: I32): string {
    if version >= 0 then PadLeft(Decimal(version), VERSION_FIELD_WIDTH)
    else "-" + PadLeft(Decimal(-(version as int)), VERSION_FIELD_WIDTH - 1)
  }

  function VersionKey(name: string, version: I32): string {
    name + [NUL] + VersionField(version)
  }

  function VersionLower(name: string): string {
    name + [NUL]
  }

  function VersionUpper(name: string): string {
    name + [SOH]
  }

  /** Position of the first NUL, or the length of the string. */
  function FirstNul(s: string): (i: nat)
    ensures i <= |s|
    ensures NUL !in s[..i]
    ensures i < |s| ==> s[i] == NUL
  {
    if s == [] then 0 else if s[0] == NUL then 0
    else
      var i := 1 + FirstNul(s[1..]);
      assert s[..i] == [s[0]] + s[1..][..i - 1];
      i
  }

  function SplitVersionKey(key: string): Option<(string, I32)> {
    var cut := FirstNul(key);
    if cut == |key| then None
    else
      var rest := key[cut + 1..];
      if |rest| != VERSION_FIELD_WIDTH || !AllDigits(rest) || Value(rest) > I32_MAX then None
      else Some((key[..cut], Value(rest)))
  }

  function VersionFromKey(name: string, key: string): Option<I32> {
    match SplitVersionKey(key)
    case None => None
    case Some((parsed, version)) => if parsed == name then Some(version) else None
  }

  /** The half-open byte range a scan of one secret's rows reads. */
  predicate InScanRange(name: string, key: string) {
    LexLe(VersionLower(name), key) && LexLe(key, VersionUpper(name)) && key != VersionUpper(name)
  }

  lemma FirstNulOf(name: string, rest: string)
    requires NUL !in name
    ensures FirstNul(name + [NUL] + rest) == |name|
  {
    var s := name + [NUL] + rest;
    var i := FirstNul(s);
    assert s[|name|] == NUL;
    assert forall j :: 0 <= j < |name| ==> s[j] == name[j];
    assert forall j :: 0 <= j < i ==> s[j] == s[..i][j];
  }

  lemma FieldShape(version: I32)
    requires version >= 0
    ensures |VersionField(version)| == VERSION_FIELD_WIDTH
    ensures AllDigits(VersionField(version)) && Value(VersionField(version)) == version
  {
    assert Pow10(10) == 10_000_000_000 by {
      assert Pow10(5) == 100_000;
      assert Pow10(10) == 10 * (10 * (10 * (10 * (10 * Pow10(5)))));
    }
    DecimalLength(version, 10);
    DecimalValue(version);
    PadValue(Decimal(version), VERSION_FIELD_WIDTH);
  }

  /** Printing then splitting gives the pair back; a negative version is never accepted. */
  lemma SplitOfKey(name: string, version: I32)
    requires NUL !in name
    ensures SplitVersionKey(VersionKey(name, version)) == if version >= 0 then Some((name, version)) else None
  {
    var key := VersionKey(name, version);
    FirstNulOf(name, VersionField(version));
    assert key[|name| + 1..] == VersionField(version);
    assert key[..|name|] == name;
    if version >= 0 {
      FieldShape(version);
    } else {
      assert !IsDigit(VersionField(version)[0]);
    }
  }

  /** Splitting then printing gives the key back, so a key splits exactly when it was printed. */
  lemma KeyOfSplit(key: string, name: string, version: I32)
    ensures SplitVersionKey(key) == Some((name, version)) <==>
            NUL !in name && version >= 0 && key == VersionKey(name, version)
  {
    if SplitVersionKey(key) == Some((name, version)) {
      var cut := FirstNul(key);
      var rest := key[cut + 1..];
      FieldShape(version);
      DigitsEqual(rest, VersionField(version));
      assert key == key[..cut] + [key[cut]] + rest;
    }
    if NUL !in name && version >= 0 && key == VersionKey(name, version) {
      SplitOfKey(name, version);
    }
  }

  /** Byte order of one secret's rows is the numeric order of their versions. */
  lemma KeyOrder(name: string, v: I32, w: I32)
    requires v >= 0 && w >= 0
    ensures LexLe(VersionKey(name, v), VersionKey(name, w)) <==> v <= w
  {
    FieldShape(v);
    FieldShape(w);
    LexPrefix(name + [NUL], VersionField(v), VersionField(w));
    DigitOrder(VersionField(v), VersionField(w));
  }

  lemma AtLeastLower(name: string, rest: string)
    ensures LexLe(VersionLower(name), name + [NUL] + rest)
  {
    LexPrefix(name + [NUL], [], rest);
    assert name + [NUL] + [] == name + [NUL];
  }

  lemma BelowUpper(name: string, rest: string)
    ensures LexLe(name + [NUL] + rest, VersionUpper(name)) && name + [NUL] + rest != VersionUpper(name)
  {
    assert name + [NUL] + rest == name + ([NUL] + rest);
    LexPrefix(name, [NUL] + rest, [SOH]);
    assert (name + [NUL] + rest)[|name|] == NUL && VersionUpper(name)[|name|] == SOH;
  }

  /** Anything that continues `name NUL` lies in the scan range of the name. */
  lemma PrefixInRange(name: string, rest: string)
    ensures InScanRange(name, name + [NUL] + rest)
  {
    AtLeastLower(name, rest);
    BelowUpper(name, rest);
  }

  /** The keys of a name's own rows, said without any byte range. */
  ghost predicate OwnsKey(name: string, key: string) {
    exists v: I32 :: v >= 0 && key == VersionKey(name, v)
  }

  /** The filtered range scan visits exactly the rows the name owns. */
  lemma ScanRefinesOwnership(name: string, key: string)
    requires NUL !in name
    ensures InScanRange(name, key) && VersionFromKey(name, key).Some? <==> OwnsKey(name, key)
    ensures VersionFromKey(name, key).Some? ==> key == VersionKey(name, VersionFromKey(name, key).value)
  {
    if VersionFromKey(name, key).Some? {
      var v := VersionFromKey(name, key).value;
      KeyOfSplit(key, name, v);
    }
    if OwnsKey(name, key) {
      var v: I32 :| v >= 0 && key == VersionKey(name, v);
      SplitOfKey(name, v);
      PrefixInRange(name, VersionField(v));
    }
  }

  /** A separator absent from both tails splits a string in one way only. */
  lemma SplitUnique(a: string, x: string, b: string, y: string, c: char)
    requires a + [c] + x == b + [c] + y && c !in x && c !in y
    ensures a == b && x == y
  {
    var s := a + [c] + x;
    assert s[|a|] == c && s[|b|] == c;
    assert forall i :: |a| < i < |s| ==> s[i] == x[i - |a| - 1];
    assert forall i :: |b| < i < |s| ==> s[i] == y[i - |b| - 1];
    assert |a| == |b|;
    assert s[..|a|] == a && s[..|b|] == b;
    assert s[|a| + 1..] == x && s[|b| + 1..] == y;
  }

  /** The filter never accepts another name's row, whatever either name contains. */
  lemma ScanIsolation(name: string, other: string, version: I32)
    requires name != other
    ensures VersionFromKey(name, VersionKey(other, version)).None?
  {
    var key := VersionKey(other, version);
    match SplitVersionKey(key) {
      case None =>
      case Some((parsed, v)) =>
        KeyOfSplit(key, parsed, v);
        FieldHasNoNul(v);
        FieldHasNoNul(version);
        SplitUnique(parsed, VersionField(v), other, VersionField(version), NUL);
    }
  }

  lemma FieldHasNoNul(version: I32)
    ensures NUL !in VersionField(version)
  {
    var digits := VersionField(version)[if version < 0 then 1 else 0..];
    assert forall i :: 0 <= i < |digits| ==> IsDigit(digits[i]);
    assert VersionField(version) == (if version < 0 then "-" else "") + digits;
  }

  lemma FieldInjective(v: I32, w: I32)
    requires VersionField(v) == VersionField(w)
    ensures v == w
  {
    var a, b := if v < 0 then -(v as int) else v, if w < 0 then -(w as int) else w;
    var p, q := VERSION_FIELD_WIDTH - (if v < 0 then 1 else 0), VERSION_FIELD_WIDTH - (if w < 0 then 1 else 0);
    DecimalValue(a);
    DecimalValue(b);
    PadValue(Decimal(a), p);
    PadValue(Decimal(b), q);
    assert IsDigit(PadLeft(Decimal(a), p)[0]) && IsDigit(PadLeft(Decimal(b), q)[0]);
    assert v < 0 ==> VersionField(v)[0] == '-' && VersionField(v)[1..] == PadLeft(Decimal(a), p);
    assert w < 0 ==> VersionField(w)[0] == '-' && VersionField(w)[1..] == PadLeft(Decimal(b), q);
  }

  /** No two rows share a key, whatever the names contain and negative versions included. */
  lemma KeyInjective(n1: string, v1: I32, n2: string, v2: I32)
    requires VersionKey(n1, v1) == VersionKey(n2, v2)
    ensures n1 == n2 && v1 == v2
  {
    FieldHasNoNul(v1);
    FieldHasNoNul(v2);
    SplitUnique(n1, VersionField(v1), n2, VersionField(v2), NUL);
    FieldInjective(v1, v2);
  }

  lemma ValidNameHasNoNul(name: string)
    requires ValidName(name)
    ensures NUL !in name && ':' !in name
  {
  }

  // ----- additional authenticated data -----

  function VersionString(version: I32): string {
    if version < 0 then "-" + Decimal(-(version as int)) else Decimal(version)
  }

  function AadFor(name: string, version: I32): string {
    name + ":" + VersionString(version)
  }

  lemma ColonFree(version: I32)
    ensures ':' !in VersionString(version)
  {
    var digits := Decimal(if version < 0 then -(version as int) else version);
    assert forall i :: 0 <= i < |digits| ==> IsDigit(digits[i]);
  }

  lemma VersionStringInjective(v: I32, w: I32)
    requires VersionString(v) == VersionString(w)
    ensures v == w
  {
    var a := if v < 0 then -(v as int) else v;
    var b := if w < 0 then -(w as int) else w;
    DecimalValue(a);
    DecimalValue(b);
    assert IsDigit(Decimal(a)[0]) && IsDigit(Decimal(b)[0]);
    assert v < 0 ==> VersionString(v)[0] == '-' && VersionString(v)[1..] == Decimal(a);
    assert w < 0 ==> VersionString(w)[0] == '-' && VersionString(w)[1..] == Decimal(b);
  }

  /** The AAD names one secret and one version, for all names whatever. */
  lemma AadInjective(n1: string, v1: I32, n2: string, v2: I32)
    requires AadFor(n1, v1) == AadFor(n2, v2)
    ensures n1 == n2 && v1 == v2
  {
    ColonFree(v1);
    ColonFree(v2);
    SplitUnique(n1, VersionString(v1), n2, VersionString(v2), ':');
    VersionStringInjective(v1, v2);
  }
}
