/**
 * The same-process drag payload of the pattern select button
 * (libgimp/gimppatternselectbutton.c, gimp_pattern_select_drag_data_received).
 *
 * The payload is a byte string "<pid>:<pointer>:<name>" read with
 * sscanf (str, "%i:%p:%n", ...).  The scanf conversions are modelled as glibc
 * performs them: %i skips white space, takes an optional sign and then a
 * 0x-prefixed hexadecimal, 0-prefixed octal or decimal number; %p is read as a
 * hexadecimal number with optional sign and optional 0x, or as "(nil)".
 */
module PatternPayload {
  import opened Wrappers

  /** A byte of a C string. */
  type Byte = b: int | 0 <= b < 256
  type Bytes = seq<Byte>

  const NUL: Byte := 0x00
  const PLUS: Byte := 0x2B
  const MINUS: Byte := 0x2D
  const COLON: Byte := 0x3A
  const ZERO: Byte := 0x30
  const NIL_TEXT: Bytes := [0x28, 0x6E, 0x69, 0x6C, 0x29]   // "(nil)"

  const GINT_MIN := -0x8000_0000
  const GINT_MAX := 0x7FFF_FFFF
  const LONG_MIN := -0x8000_0000_0000_0000
  const LONG_MAX := 0x7FFF_FFFF_FFFF_FFFF

  /** The bytes of an ASCII string literal. */
  function Ascii(s: string): (r: Bytes)
    requires forall k :: 0 <= k < |s| ==> s[k] < 128 as char
    ensures |r| == |s| && forall k :: 0 <= k < |s| ==> r[k] == s[k] as int
  {
    seq(|s|, k requires 0 <= k < |s| => s[k] as int)
  }

  predicate NulFree(s: Bytes) {
    forall k :: 0 <= k < |s| ==> s[k] != NUL
  }

  /** isspace in the C locale: space, \t, \n, \v, \f and \r. */
  predicate IsSpace(b: Byte) {
    b == 0x20 || 0x09 <= b <= 0x0D
  }

  predicate IsX(b: Byte) {
    b == 0x78 || b == 0x58
  }

  predicate IsBase(base: nat) {
    base == 8 || base == 10 || base == 16
  }

  /** The value of b as a digit in the given base, or -1 when it is not one. */
  function DigitValue(b: Byte, base: nat): (d: int)
    requires IsBase(base)
    ensures -1 <= d < base
    ensures d >= 0 ==> 0x30 <= b <= 0x39 || 0x41 <= b <= 0x46 || 0x61 <= b <= 0x66
  {
    var v := if 0x30 <= b <= 0x39 then b - 0x30
             else if 0x61 <= b <= 0x66 then b - 0x61 + 10
             else if 0x41 <= b <= 0x46 then b - 0x41 + 10
             else -1;
    if v < base then v else -1
  }

  predicate IsDigit(b: Byte, base: nat)
    requires IsBase(base)
  {
    DigitValue(b, base) >= 0
  }

  /** The C string that g_strndup makes of the received bytes: everything before the first NUL. */
  function UpToNul(s: Bytes): (r: Bytes)
    ensures r <= s && NulFree(r)
    ensures |r| < |s| ==> s[|r|] == NUL
  {
    if s == [] || s[0] == NUL then [] else [s[0]] + UpToNul(s[1..])
  }

  /**
   * The length of the well-formed UTF-8 sequence at the start of s, or 0 when
   * s does not start with one (the table of section 4 of RFC 3629: no
   * overlong forms, no surrogates, nothing above U+10FFFF).
   */
  function SequenceLength(s: Bytes): (n: nat)
    ensures n <= |s| && n <= 4
  {
    if s == [] then 0
    else
      var b := s[0];
      if b <= 0x7F then 1
      else if 0xC2 <= b <= 0xDF then
        if |s| >= 2 && IsCont(s[1]) then 2 else 0
      else if 0xE0 <= b <= 0xEF then
        var lo := if b == 0xE0 then 0xA0 else 0x80;
        var hi := if b == 0xED then 0x9F else 0xBF;
        if |s| >= 3 && lo <= s[1] <= hi && IsCont(s[2]) then 3 else 0
      else if 0xF0 <= b <= 0xF4 then
        var lo := if b == 0xF0 then 0x90 else 0x80;
        var hi := if b == 0xF4 then 0x8F else 0xBF;
        if |s| >= 4 && lo <= s[1] <= hi && IsCont(s[2]) && IsCont(s[3]) then 4 else 0
      else 0
  }

  predicate IsCont(b: Byte) {
    0x80 <= b <= 0xBF
  }

  /** g_utf8_validate on a NUL-free string. */
  predicate ValidUtf8(s: Bytes)
    decreases |s|
  {
    s == [] || (SequenceLength(s) > 0 && ValidUtf8(s[SequenceLength(s)..]))
  }

  /** The position of the first byte at or after i that is not white space. */
  function SkipSpace(s: Bytes, i: nat): (j: nat)
    requires i <= |s|
    ensures i <= j <= |s|
    ensures forall k :: i <= k < j ==> IsSpace(s[k])
    ensures j == |s| || !IsSpace(s[j])
    decreases |s| - i
  {
    if i < |s| && IsSpace(s[i]) then SkipSpace(s, i + 1) else i
  }

  /** The end of the longest run of digits of the given base that starts at i. */
  function DigitsEnd(s: Bytes, i: nat, base: nat): (j: nat)
    requires i <= |s| && IsBase(base)
    ensures i <= j <= |s|
    ensures forall k :: i <= k < j ==> IsDigit(s[k], base)
    ensures j == |s| || !IsDigit(s[j], base)
    decreases |s| - i
  {
    if i < |s| && IsDigit(s[i], base) then DigitsEnd(s, i + 1, base) else i
  }

  predicate AllDigits(ds: Bytes, base: nat)
    requires IsBase(base)
  {
    forall k :: 0 <= k < |ds| ==> IsDigit(ds[k], base)
  }

  /** The run DigitsEnd finds, taken as a slice, is all digits. */
  lemma DigitsRun(s: Bytes, i: nat, base: nat)
    requires i <= |s| && IsBase(base)
    ensures AllDigits(s[i..DigitsEnd(s, i, base)], base)
  {
    var j := DigitsEnd(s, i, base);
    forall k | 0 <= k < j - i
      ensures IsDigit(s[i..j][k], base)
    {
      assert s[i..j][k] == s[i + k];
    }
  }

  /** The number that the digits ds spell in the given base, most significant digit first. */
  function DigitsValue(ds: Bytes, base: nat): nat
    requires IsBase(base) && AllDigits(ds, base)
  {
    if ds == [] then 0
    else
      var high: nat := DigitsValue(ds[..|ds| - 1], base);
      var low := DigitValue(ds[|ds| - 1], base);
      assert low >= 0 && high * base >= 0;
      high * base + low
  }

  function Signed(negative: bool, magnitude: nat): int {
    if negative then -(magnitude as int) else magnitude
  }

  /** strtol's result: the value saturated to the range of a long, 64 bits wide (LP64). */
  function SaturateLong(v: int): (r: int)
    ensures LONG_MIN <= r <= LONG_MAX
    ensures LONG_MIN <= v <= LONG_MAX ==> r == v
  {
    if v < LONG_MIN then LONG_MIN else if v > LONG_MAX then LONG_MAX else v
  }

  /** The store of a long into a gint: the low 32 bits, read as two's complement. */
  function ToGint(v: int): (r: int)
    ensures GINT_MIN <= r <= GINT_MAX
    ensures (r - v) % 0x1_0000_0000 == 0
    ensures GINT_MIN <= v <= GINT_MAX ==> r == v
  {
    (v - GINT_MIN) % 0x1_0000_0000 + GINT_MIN
  }

  /** A number read by a scanf conversion and the position just after it. */
  datatype Scanned = Scanned(value: int, end: nat)

  /** The %i conversion at position i (before the conversion to gint). */
  function ScanInt(s: Bytes, i: nat): (r: Option<Scanned>)
    requires i <= |s|
    ensures r.Some? ==> i < r.value.end <= |s|
  {
    var p := SkipSpace(s, i);
    var negative := p < |s| && s[p] == MINUS;
    var q := if p < |s| && (s[p] == MINUS || s[p] == PLUS) then p + 1 else p;
    if q < |s| && s[q] == ZERO then
      if q + 1 < |s| && IsX(s[q + 1]) then
        // "0x": hexadecimal; the 0 alone is the number when no hex digit follows
        var e := DigitsEnd(s, q + 2, 16);
        DigitsRun(s, q + 2, 16);
        Some(Scanned(Signed(negative, DigitsValue(s[q + 2..e], 16)), e))
      else
        var e := DigitsEnd(s, q + 1, 8);
        DigitsRun(s, q + 1, 8);
        Some(Scanned(Signed(negative, DigitsValue(s[q + 1..e], 8)), e))
    else
      var e := DigitsEnd(s, q, 10);
      DigitsRun(s, q, 10);
      if e > q then Some(Scanned(Signed(negative, DigitsValue(s[q..e], 10)), e)) else None
  }

  /** Whether "(nil)", in any letter case, starts at position q. */
  predicate IsNil(s: Bytes, q: nat) {
    q + 5 <= |s| && s[q] == 0x28 && (s[q + 1] == 0x6E || s[q + 1] == 0x4E)
    && (s[q + 2] == 0x69 || s[q + 2] == 0x49) && (s[q + 3] == 0x6C || s[q + 3] == 0x4C)
    && s[q + 4] == 0x29
  }

  /** The %p conversion at position i: the position just after the pointer, if one is there. */
  function ScanPointer(s: Bytes, i: nat): (r: Option<nat>)
    requires i <= |s|
    ensures r.Some? ==> i < r.value <= |s|
  {
    var p := SkipSpace(s, i);
    var signed := p < |s| && (s[p] == MINUS || s[p] == PLUS);
    var q := if signed then p + 1 else p;
    if q < |s| && s[q] == ZERO then
      var h := if q + 1 < |s| && IsX(s[q + 1]) then q + 2 else q + 1;
      Some(DigitsEnd(s, h, 16))
    else
      var e := DigitsEnd(s, q, 16);
      if e > q then Some(e)
      else if !signed && IsNil(s, q) then Some(q + 5)
      else None
  }

  /**
   * What sscanf (str, "%i:%p:%n", &pid, &unused, &name_offset) leaves: the
   * number of conversions made, the gint stored in pid (if any) and
   * name_offset, which stays 0 unless the whole format was matched.
   */
  datatype Scan = Scan(converted: nat, pid: Option<int>, nameOffset: nat)

  function ScanDragPayload(s: Bytes): (r: Scan)
    ensures r.converted <= 2
    ensures r.pid.Some? <==> r.converted >= 1
    ensures r.pid.Some? ==> GINT_MIN <= r.pid.value <= GINT_MAX
    ensures r.nameOffset > 0 ==> r.converted == 2 && 4 <= r.nameOffset <= |s| && s[r.nameOffset - 1] == COLON
  {
    match ScanInt(s, 0)
    case None => Scan(0, None, 0)
    case Some(n) =>
      var pid := Some(ToGint(SaturateLong(n.value)));
      if n.end == |s| || s[n.end] != COLON then Scan(1, pid, 0)
      else
        match ScanPointer(s, n.end + 1)
        case None => Scan(1, pid, 0)
        case Some(e) =>
          if e < |s| && s[e] == COLON then Scan(2, pid, e + 1) else Scan(2, pid, 0)
  }

  /**
   * The name a NUL-free payload string carries: what follows "%i:%p:" when
   * the whole format matched and the pid field names this process.
   */
  function NameIn(str: Bytes, ownPid: int): (r: Option<Bytes>)
    ensures var scan := ScanDragPayload(str);
      r.Some? <==> scan.converted >= 2 && scan.pid == Some(ownPid) && scan.nameOffset > 0
    ensures r.Some? ==> r.value == str[ScanDragPayload(str).nameOffset..]
    ensures r.Some? ==> |r.value| + 4 <= |str| && r.value == str[|str| - |r.value|..]
    ensures r.Some? && NulFree(str) ==> NulFree(r.value)
  {
    var scan := ScanDragPayload(str);
    if scan.converted >= 2 && scan.pid == Some(ownPid) && scan.nameOffset > 0 then
      Some(str[scan.nameOffset..])
    else None
  }

  /**
   * gimp_pattern_select_drag_data_received: the pattern name a drop carries,
   * or None when the drop is discarded.  ownPid is gimp_getpid ().
   */
  function DragName(format: int, data: Bytes, ownPid: int): (r: Option<Bytes>)
    ensures r.Some? ==> format == 8 && 1 <= |data|
    ensures r.Some? ==> NulFree(r.value) && |r.value| + 4 <= |data|
    ensures r.Some? ==> |r.value| <= |UpToNul(data)| && r.value == UpToNul(data)[|UpToNul(data)| - |r.value|..]
  {
    if format != 8 || |data| < 1 then None
    else
      var str := UpToNul(data);
      if !ValidUtf8(str) then None
      else
        NameIn(str, ownPid)
  }

  /**
   * The acceptance rule for every payload: a drop yields a name exactly
   * when it is 8-bit and non-empty, its C string is valid UTF-8, both
   * conversions matched, the stored pid is the own pid and the name offset
   * is nonzero; the name is the C string from the name offset on.
   */
  lemma DragNameAccepts(format: int, data: Bytes, ownPid: int)
    ensures var str := UpToNul(data); var scan := ScanDragPayload(str);
      DragName(format, data, ownPid).Some? <==>
        format == 8 && 1 <= |data| && ValidUtf8(str)
        && scan.converted >= 2 && scan.pid == Some(ownPid) && scan.nameOffset > 0
    ensures DragName(format, data, ownPid).Some? ==>
      DragName(format, data, ownPid).value == UpToNul(data)[ScanDragPayload(UpToNul(data)).nameOffset..]
  {
  }

  // ---------------------------------------------------------------------
  // How the conversions read particular inputs.
  // ---------------------------------------------------------------------

  /**
   * %i, hexadecimal: "0x" with no hex digit after it reads 0 and consumes
   * the x; "0X" is a prefix too; no digit at all is no conversion.
   */
  lemma ScanIntHexForms()
    ensures ScanInt([0x30, 0x78, 0x3A], 0) == Some(Scanned(0, 2))            // "0x:"
    ensures ScanInt([0x30, 0x58, 0x31, 0x66], 0) == Some(Scanned(31, 4))     // "0X1f"
    ensures ScanInt([0x3A], 0) == None                                       // ":"
  {
    var a: Bytes := [0x30, 0x78, 0x3A];
    assert SkipSpace(a, 0) == 0 && DigitsEnd(a, 2, 16) == 2;
    assert a[2..2] == [];
    var d: Bytes := [0x30, 0x58, 0x31, 0x66];
    assert SkipSpace(d, 0) == 0 && DigitsEnd(d, 4, 16) == 4 && DigitsEnd(d, 2, 16) == 4;
    assert d[2..4] == [0x31, 0x66] && [0x31, 0x66][..1] == [0x31] && [0x31][..0] == [];
    assert DigitsValue([0x31], 16) == 1 && DigitsValue(d[2..4], 16) == 31;
    var e: Bytes := [0x3A];
    assert SkipSpace(e, 0) == 0 && DigitsEnd(e, 0, 10) == 0;
  }

  /** %i: a leading 0 selects octal. */
  lemma ScanIntOctalForm()
    ensures ScanInt([0x30, 0x31, 0x37, 0x3A], 0) == Some(Scanned(15, 3))     // "017:"
  {
    var b: Bytes := [0x30, 0x31, 0x37, 0x3A];
    assert SkipSpace(b, 0) == 0 && DigitsEnd(b, 3, 8) == 3 && DigitsEnd(b, 1, 8) == 3;
    assert b[1..3] == [0x31, 0x37] && [0x31, 0x37][..1] == [0x31] && [0x31][..0] == [];
    assert DigitsValue([0x31], 8) == 1 && DigitsValue(b[1..3], 8) == 15;
  }

  /** %i: white space and a sign may come before the digits. */
  lemma ScanIntSignedForm()
    ensures ScanInt([0x20, 0x2D, 0x31, 0x32], 0) == Some(Scanned(-12, 4))    // " -12"
  {
    var c: Bytes := [0x20, 0x2D, 0x31, 0x32];
    assert SkipSpace(c, 1) == 1 && SkipSpace(c, 0) == 1;
    assert DigitsEnd(c, 4, 10) == 4 && DigitsEnd(c, 2, 10) == 4;
    assert c[2..4] == [0x31, 0x32] && [0x31, 0x32][..1] == [0x31] && [0x31][..0] == [];
    assert DigitsValue([0x31], 10) == 1 && DigitsValue(c[2..4], 10) == 12;
  }

  /** %p: "(nil)" is a pointer in any letter case, but not after a sign. */
  lemma ScanPointerNilForms()
    ensures ScanPointer([0x28, 0x4E, 0x49, 0x4C, 0x29, 0x3A], 0) == Some(5)  // "(NIL):"
    ensures ScanPointer([0x2D, 0x28, 0x6E, 0x69, 0x6C, 0x29], 0) == None     // "-(nil)"
    ensures ScanPointer([0x3A], 0) == None                                   // ":"
  {
    var a: Bytes := [0x28, 0x4E, 0x49, 0x4C, 0x29, 0x3A];
    assert SkipSpace(a, 0) == 0 && DigitsEnd(a, 0, 16) == 0 && IsNil(a, 0);
    var d: Bytes := [0x2D, 0x28, 0x6E, 0x69, 0x6C, 0x29];
    assert SkipSpace(d, 0) == 0 && DigitsEnd(d, 1, 16) == 1;
    var e: Bytes := [0x3A];
    assert SkipSpace(e, 0) == 0 && DigitsEnd(e, 0, 16) == 0 && !IsNil(e, 0);
  }

  /** %p: a hexadecimal number, signed or not, with or without "0x". */
  lemma ScanPointerHexForms()
    ensures ScanPointer([0x2D, 0x30, 0x78, 0x31, 0x30], 0) == Some(5)        // "-0x10"
    ensures ScanPointer([0x61, 0x62, 0x3A], 0) == Some(2)                    // "ab:"
  {
    var b: Bytes := [0x2D, 0x30, 0x78, 0x31, 0x30];
    assert SkipSpace(b, 0) == 0 && DigitsEnd(b, 5, 16) == 5 && DigitsEnd(b, 3, 16) == 5;
    var c: Bytes := [0x61, 0x62, 0x3A];
    assert SkipSpace(c, 0) == 0 && DigitsEnd(c, 2, 16) == 2 && DigitsEnd(c, 0, 16) == 2;
  }

  /**
   * g_utf8_validate: a three-byte character is accepted; an overlong form,
   * a surrogate, a code point above U+10FFFF and a cut-off sequence are not.
   */
  lemma Utf8Forms()
    ensures ValidUtf8([0xE2, 0x82, 0xAC])          // U+20AC
    ensures !ValidUtf8([0xC0, 0x80])               // overlong NUL
    ensures !ValidUtf8([0xED, 0xA0, 0x80])         // U+D800
    ensures !ValidUtf8([0xF4, 0x90, 0x80, 0x80])   // U+110000
    ensures !ValidUtf8([0xE2, 0x82])               // cut off
  {
  }

  // ---------------------------------------------------------------------
  // Payloads in the layout the parser expects, and the round trip.
  // ---------------------------------------------------------------------

  /** The decimal digits of n, as printf "%d" writes them. */
  function Decimal(n: nat): Bytes
    decreases n
  {
    if n < 10 then [ZERO + n] else Decimal(n / 10) + [ZERO + n % 10]
  }

  function HexDigit(d: nat): Byte
    requires d < 16
  {
    if d < 10 then ZERO + d else 0x61 + (d - 10)
  }

  /** The lower-case hexadecimal digits of n. */
  function Hex(n: nat): Bytes
    decreases n
  {
    if n < 16 then [HexDigit(n)] else Hex(n / 16) + [HexDigit(n % 16)]
  }

  /** A pointer as glibc's printf "%p" writes it: "(nil)" for NULL, else 0x and hex digits. */
  function PointerText(p: nat): Bytes {
    if p == 0 then NIL_TEXT else [ZERO, 0x78] + Hex(p)
  }

  /** "<pid>:<pointer>:<name>" with the pid in decimal. */
  function Payload(pid: nat, pointer: nat, name: Bytes): Bytes {
    Decimal(pid) + [COLON] + PointerText(pointer) + [COLON] + name
  }

  lemma {:induction false} DecimalDigits(n: nat)
    ensures 1 <= |Decimal(n)|
    ensures forall k :: 0 <= k < |Decimal(n)| ==> 0x30 <= Decimal(n)[k] <= 0x39
    ensures AllDigits(Decimal(n), 10) && DigitsValue(Decimal(n), 10) == n
    ensures n > 0 ==> Decimal(n)[0] != ZERO
    decreases n
  {
    if n >= 10 {
      DecimalDigits(n / 10);
      var d := Decimal(n / 10);
      assert Decimal(n) == d + [ZERO + n % 10];
      assert Decimal(n)[..|Decimal(n)| - 1] == d;
    }
  }

  lemma {:induction false} HexDigits(n: nat)
    ensures 1 <= |Hex(n)|
    ensures forall k :: 0 <= k < |Hex(n)| ==> 0x30 <= Hex(n)[k] <= 0x39 || 0x61 <= Hex(n)[k] <= 0x66
    ensures AllDigits(Hex(n), 16)
    decreases n
  {
    if n >= 16 {
      HexDigits(n / 16);
    }
  }

  /** DigitsEnd stops exactly after a run of len digits followed by a non-digit or the end. */
  lemma {:induction false} DigitsEndAfterRun(s: Bytes, i: nat, len: nat, base: nat)
    requires IsBase(base) && i + len <= |s|
    requires forall k :: i <= k < i + len ==> IsDigit(s[k], base)
    requires i + len == |s| || !IsDigit(s[i + len], base)
    ensures DigitsEnd(s, i, base) == i + len
    decreases len
  {
    if len > 0 {
      DigitsEndAfterRun(s, i + 1, len - 1, base);
    }
  }

  lemma {:induction false} UpToNulOfNulFree(s: Bytes)
    requires NulFree(s)
    ensures UpToNul(s) == s
  {
    if s != [] {
      UpToNulOfNulFree(s[1..]);
      assert [s[0]] + s[1..] == s;
    }
  }

  /** An ASCII prefix keeps a valid UTF-8 string valid. */
  lemma {:induction false} ValidUtf8AsciiPrefix(a: Bytes, b: Bytes)
    requires forall k :: 0 <= k < |a| ==> a[k] <= 0x7F
    requires ValidUtf8(b)
    ensures ValidUtf8(a + b)
    decreases |a|
  {
    if a != [] {
      var s := a + b;
      assert s[0] == a[0] <= 0x7F;
      assert SequenceLength(s) == 1;
      assert s[1..] == a[1..] + b;
      ValidUtf8AsciiPrefix(a[1..], b);
    } else {
      assert a + b == b;
    }
  }

  /** %i on a decimal number without leading zero at the start of s. */
  lemma ScanIntDecimal(s: Bytes, len: nat)
    requires 1 <= len <= |s| && 0x31 <= s[0] <= 0x39
    requires forall k :: 0 <= k < len ==> IsDigit(s[k], 10)
    requires len == |s| || !IsDigit(s[len], 10)
    ensures ScanInt(s, 0) == Some(Scanned(DigitsValue(s[0..len], 10), len))
  {
    assert SkipSpace(s, 0) == 0;
    DigitsEndAfterRun(s, 0, len, 10);
  }

  /** %p on "0x" and len hex digits at position i. */
  lemma ScanPointerHex(s: Bytes, i: nat, len: nat)
    requires i + 2 + len <= |s| && s[i] == ZERO && IsX(s[i + 1])
    requires forall k :: i + 2 <= k < i + 2 + len ==> IsDigit(s[k], 16)
    requires i + 2 + len == |s| || !IsDigit(s[i + 2 + len], 16)
    ensures ScanPointer(s, i) == Some(i + 2 + len)
  {
    assert SkipSpace(s, i) == i;
    DigitsEndAfterRun(s, i + 2, len, 16);
  }

  /** %p on "(nil)" at position i. */
  lemma ScanPointerNil(s: Bytes, i: nat)
    requires IsNil(s, i)
    ensures ScanPointer(s, i) == Some(i + 5)
  {
    assert SkipSpace(s, i) == i;
    DigitsEndAfterRun(s, i, 0, 16);
  }

  /** d is how printf "%d" writes the positive number v: decimal digits, the first not 0. */
  predicate IsDecimalOf(d: Bytes, v: nat) {
    1 <= |d| && 0x31 <= d[0] <= 0x39 && AllDigits(d, 10) && DigitsValue(d, 10) == v
  }

  /** p is how printf "%p" writes some pointer: "(nil)", or 0x and hexadecimal digits. */
  predicate IsPointerText(p: Bytes) {
    p == NIL_TEXT || (3 <= |p| && p[0] == ZERO && p[1] == 0x78 && AllDigits(p[2..], 16))
  }

  lemma DecimalIsDecimalOf(pid: nat)
    requires 0 < pid
    ensures IsDecimalOf(Decimal(pid), pid)
  {
    DecimalDigits(pid);
  }

  lemma PointerTextIsPointerText(pointer: nat)
    ensures IsPointerText(PointerText(pointer))
  {
    if pointer != 0 {
      HexDigits(pointer);
      assert PointerText(pointer)[2..] == Hex(pointer);
    }
  }

  /** The "%i" conversion reads a pid field followed by a colon. */
  lemma ScanPidField(s: Bytes, d: Bytes, v: nat)
    requires IsDecimalOf(d, v) && |d| < |s| && s[..|d|] == d && s[|d|] == COLON
    ensures ScanInt(s, 0) == Some(Scanned(v, |d|))
  {
    forall k | 0 <= k < |d|
      ensures IsDigit(s[k], 10)
    {
      assert s[k] == s[..|d|][k];
    }
    assert s[0] == d[0];
    ScanIntDecimal(s, |d|);
    assert s[0..|d|] == d;
  }

  /** The "%p" conversion reads a pointer field at i followed by a colon. */
  lemma ScanPointerField(s: Bytes, i: nat, p: Bytes)
    requires IsPointerText(p) && i + |p| < |s| && s[i..i + |p|] == p && s[i + |p|] == COLON
    ensures ScanPointer(s, i) == Some(i + |p|)
  {
    forall k | 0 <= k < |p|
      ensures s[i + k] == p[k]
    {
      assert s[i + k] == s[i..i + |p|][k];
    }
    if p == NIL_TEXT {
      assert IsNil(s, i) by {
        assert s[i] == p[0] && s[i + 1] == p[1] && s[i + 2] == p[2];
        assert s[i + 3] == p[3] && s[i + 4] == p[4];
      }
      ScanPointerNil(s, i);
    } else {
      var h := p[2..];
      assert s[i] == ZERO && IsX(s[i + 1]);
      forall k | i + 2 <= k < i + 2 + |h|
        ensures IsDigit(s[k], 16)
      {
        assert s[k] == p[k - i] == h[k - i - 2];
      }
      assert !IsDigit(s[i + 2 + |h|], 16);
      ScanPointerHex(s, i, |h|);
    }
  }

  /** "%i" reads v up to position e and "%p" reads on to position f, each followed by a colon. */
  predicate FieldsRead(s: Bytes, v: int, e: nat, f: nat) {
    && e < |s| && ScanInt(s, 0) == Some(Scanned(v, e)) && s[e] == COLON
    && f < |s| && ScanPointer(s, e + 1) == Some(f) && s[f] == COLON
  }

  /** "%i:%p:" matches in full when both fields are read and each is followed by a colon. */
  lemma FormatMatched(s: Bytes, v: int, e: nat, f: nat)
    requires FieldsRead(s, v, e, f)
    ensures ScanDragPayload(s) == Scan(2, Some(ToGint(SaturateLong(v))), f + 1)
  {
  }

  /** The "<pid>:<pointer>:" prefix of a payload is matched in full. */
  lemma ScanPayloadPrefix(d: Bytes, v: nat, p: Bytes, name: Bytes)
    requires IsDecimalOf(d, v) && IsPointerText(p)
    ensures ScanDragPayload(d + [COLON] + p + [COLON] + name) == Scan(2, Some(ToGint(SaturateLong(v))), |d| + |p| + 2)
  {
    var s := d + [COLON] + p + [COLON] + name;
    assert s[..|d|] == d && s[|d|] == COLON;
    assert s[|d| + 1..|d| + 1 + |p|] == p && s[|d| + 1 + |p|] == COLON;
    FieldsMatched(s, d, v, p);
  }

  /** The same, for any string that starts with "<d>:<p>:". */
  lemma FieldsMatched(s: Bytes, d: Bytes, v: nat, p: Bytes)
    requires IsDecimalOf(d, v) && IsPointerText(p) && |d| + 1 + |p| < |s|
    requires s[..|d|] == d && s[|d|] == COLON
    requires s[|d| + 1..|d| + 1 + |p|] == p && s[|d| + 1 + |p|] == COLON
    ensures ScanDragPayload(s) == Scan(2, Some(ToGint(SaturateLong(v))), |d| + |p| + 2)
  {
    var e, f := |d|, |d| + 1 + |p|;
    ScanPidField(s, d, v);
    ScanPointerField(s, e + 1, p);
    assert FieldsRead(s, v, e, f);
    FormatMatched(s, v, e, f);
  }

  /** Every byte of a payload's "<pid>:<pointer>:" prefix is a non-NUL ASCII byte. */
  lemma PrefixAscii(d: Bytes, v: nat, p: Bytes)
    requires IsDecimalOf(d, v) && IsPointerText(p)
    ensures var t := d + [COLON] + p + [COLON];
      forall k :: 0 <= k < |t| ==> 0 < t[k] <= 0x7F
  {
    var t := d + [COLON] + p + [COLON];
    forall k | 0 <= k < |t|
      ensures 0 < t[k] <= 0x7F
    {
      if k < |d| {
        assert t[k] == d[k] && IsDigit(d[k], 10);
      } else if |d| < k < |d| + 1 + |p| && p != NIL_TEXT && k >= |d| + 3 {
        assert t[k] == p[2..][k - |d| - 3] && IsDigit(p[2..][k - |d| - 3], 16);
      }
    }
  }

  /**
   * What a drop of "<d>:<p>:<name>" yields: its name when the pid field,
   * stored into a gint, is the own pid; nothing otherwise.
   */
  lemma DragPayloadText(d: Bytes, v: nat, p: Bytes, name: Bytes, ownPid: int)
    requires IsDecimalOf(d, v) && IsPointerText(p) && NulFree(name) && ValidUtf8(name)
    ensures DragName(8, d + [COLON] + p + [COLON] + name, ownPid)
         == if ownPid == ToGint(SaturateLong(v)) then Some(name) else None
  {
    var t := d + [COLON] + p + [COLON];
    var s := t + name;
    assert s == d + [COLON] + p + [COLON] + name;
    PrefixAscii(d, v, p);
    assert NulFree(s) by {
      forall k | 0 <= k < |s|
        ensures s[k] != NUL
      {
        if k >= |t| {
          assert s[k] == name[k - |t|];
        } else {
          assert s[k] == t[k];
        }
      }
    }
    UpToNulOfNulFree(s);
    ValidUtf8AsciiPrefix(t, name);
    ScanPayloadPrefix(d, v, p, name);
    assert s[|t|..] == name;
  }

  /**
   * What a drop of a payload yields: its name when the pid field, stored
   * into a gint, is the own pid; nothing otherwise.
   */
  lemma DragPayload(pid: nat, pointer: nat, name: Bytes, ownPid: int)
    requires 0 < pid && NulFree(name) && ValidUtf8(name)
    ensures DragName(8, Payload(pid, pointer, name), ownPid)
         == if ownPid == ToGint(SaturateLong(pid)) then Some(name) else None
  {
    DecimalIsDecimalOf(pid);
    PointerTextIsPointerText(pointer);
    DragPayloadText(Decimal(pid), pid, PointerText(pointer), name, ownPid);
  }

  /**
   * The round trip: a payload naming this process yields exactly its name;
   * one naming any other process is discarded.
   */
  lemma DragRoundTrip(pid: nat, pointer: nat, name: Bytes, ownPid: int)
    requires 0 < pid <= GINT_MAX
    requires NulFree(name) && ValidUtf8(name)
    ensures DragName(8, Payload(pid, pointer, name), ownPid)
         == if ownPid == pid then Some(name) else None
  {
    DragPayload(pid, pointer, name, ownPid);
  }

  /**
   * The pid is compared after its store into a gint, so with a 64-bit long
   * a pid field that exceeds the own pid by 2^32 is taken for this process
   * as well.
   */
  lemma DragPidModulo32(pid: nat, pointer: nat, name: Bytes)
    requires 0 < pid <= GINT_MAX
    requires NulFree(name) && ValidUtf8(name)
    ensures DragName(8, Payload(pid + 0x1_0000_0000, pointer, name), pid) == Some(name)
  {
    GintWraps(pid);
    DragPayload(pid + 0x1_0000_0000, pointer, name, pid);
  }

  /** A positive gint plus 2^32, saturated to a long and stored into a gint, is the gint again. */
  lemma GintWraps(v: int)
    requires 0 < v <= GINT_MAX
    ensures ToGint(SaturateLong(v + 0x1_0000_0000)) == v
  {
    assert SaturateLong(v + 0x1_0000_0000) == v + 0x1_0000_0000;
    assert (v + 0x1_0000_0000 - GINT_MIN) % 0x1_0000_0000 == v - GINT_MIN;
  }
}
