/** The text that the server scans for and sends. */
module Http {
  import opened Words
  import opened Sequences

  type Byte = x: int | 0 <= x < 256

  const NUL: Byte := 0
  const MINUS: Byte := 45
  const DIGIT_ZERO: Byte := 48

  function Bytes(s: string): (r: seq<Byte>)
    ensures |r| == |s|
  {
    seq(|s|, i requires 0 <= i < |s| => s[i] as int % 256)
  }

  const END_OF_HEADERS: seq<Byte> := [13, 10, 13, 10]

  // The responses, line by line.
  const OK_STATUS: seq<Byte> := Bytes("HTTP/1.0 200 OK\r\n")
  const OK_BEFORE: seq<Byte> := OK_STATUS + Bytes("Content-type: text/plain\r\n") + Bytes("Content-length: ")
  const OK_AFTER: seq<Byte> := Bytes(" \r\n\r\n")
  const NOT_FOUND_STATUS: seq<Byte> := Bytes("HTTP/1.0 404 FILE NOT FOUND\r\n")
  const NOT_FOUND_TYPE: seq<Byte> := Bytes("Content-type: text/html\r\n\r\n")
  const NOT_FOUND: seq<Byte> := NOT_FOUND_STATUS + NOT_FOUND_TYPE +
    Bytes("<html><body bgColor=black text=white>\n") + Bytes("<h2>404 FILE NOT FOUND</h2>\n") + Bytes("</body></html>\n")

  // ---------- C strings ----------

  /** The bytes before the first NUL. */
  function CString(s: seq<Byte>): (r: seq<Byte>) {
    s[..First(s, (b: Byte) => b == NUL)]
  }

  predicate MatchAt(s: seq<Byte>, pattern: seq<Byte>, i: nat) {
    i + |pattern| <= |s| && s[i..i + |pattern|] == pattern
  }

  /** `strstr(s, pattern) != NULL`. */
  predicate Contains(s: seq<Byte>, pattern: seq<Byte>) {
    exists i :: 0 <= i <= |s| && MatchAt(s, pattern, i)
  }

  predicate NulFree(s: seq<Byte>) {
    forall i :: 0 <= i < |s| ==> s[i] != NUL
  }

  /** What follows the terminating NUL in a buffer does not matter. */
  lemma CStringStops(s: seq<Byte>, rest: seq<Byte>)
    ensures CString(s + [NUL] + rest) == CString(s)
    ensures NulFree(s) ==> CString(s) == s
  {
    var isNul := (b: Byte) => b == NUL;
    var p, t := First(s, isNul), s + [NUL] + rest;
    assert t[|s|] == NUL;
    assert forall j :: 0 <= j < |s| ==> t[j] == s[j];
    var q := First(t, isNul);
    assert q <= |s|;
    assert p == q by {
      FirstIs(s, isNul, q);
    }
  }

  /** A C string only gets longer when more arrives. */
  lemma CStringGrows(s: seq<Byte>, t: seq<Byte>)
    ensures CString(s) <= CString(s + t)
  {
    var isNul := (b: Byte) => b == NUL;
    var p, q := First(s, isNul), First(s + t, isNul);
    assert forall j :: 0 <= j < |s| ==> (s + t)[j] == s[j];
    assert p <= q;
    assert CString(s + t)[..p] == CString(s);
  }

  /** More input never hides a terminator that has arrived. */
  lemma ContainsGrows(s: seq<Byte>, t: seq<Byte>, pattern: seq<Byte>)
    requires Contains(s, pattern)
    ensures Contains(s + t, pattern)
  {
    var i :| 0 <= i <= |s| && MatchAt(s, pattern, i);
    assert (s + t)[i..i + |pattern|] == s[i..i + |pattern|];
    assert MatchAt(s + t, pattern, i);
  }

  /** The scan finds the end of the headers exactly when it occurs somewhere with no NUL in front of it. */
  lemma ScanExact(s: seq<Byte>)
    ensures Contains(CString(s), END_OF_HEADERS) <==>
            exists i :: 0 <= i <= |s| && MatchAt(s, END_OF_HEADERS, i) && NulFree(s[..i])
  {
    var c := CString(s);
    if Contains(c, END_OF_HEADERS) {
      var i :| 0 <= i <= |c| && MatchAt(c, END_OF_HEADERS, i);
      assert s[i..i + 4] == c[i..i + 4];
      assert MatchAt(s, END_OF_HEADERS, i) && NulFree(s[..i]);
    }
    if exists i :: 0 <= i <= |s| && MatchAt(s, END_OF_HEADERS, i) && NulFree(s[..i]) {
      var i :| 0 <= i <= |s| && MatchAt(s, END_OF_HEADERS, i) && NulFree(s[..i]);
      forall j | 0 <= j < i + 4
        ensures s[j] != NUL
      {
        if j < i {
          assert s[..i][j] == s[j];
        } else {
          assert s[i..i + 4][j - i] == s[j];
        }
      }
      assert i + 4 <= |c|;
      assert c[i..i + 4] == s[i..i + 4];
      assert MatchAt(c, END_OF_HEADERS, i);
    }
  }

  /** Carriage return, line feed, carriage return, line feed, and no byte 0 in front. */
  predicate EmptyLineFirst(s: seq<Byte>) {
    exists i {:trigger s[i..i + 4]} :: 0 <= i && i + 4 <= |s| && s[i..i + 4] == [13, 10, 13, 10] && 0 !in s[..i]
  }

  lemma ScanBytes(s: seq<Byte>)
    ensures Contains(CString(s), END_OF_HEADERS) <==> EmptyLineFirst(s)
  {
    ScanExact(s);
    if Contains(CString(s), END_OF_HEADERS) {
      var i :| 0 <= i <= |s| && MatchAt(s, END_OF_HEADERS, i) && NulFree(s[..i]);
      assert s[i..i + 4] == [13, 10, 13, 10];
    }
    if EmptyLineFirst(s) {
      var i :| 0 <= i && i + 4 <= |s| && s[i..i + 4] == [13, 10, 13, 10] && 0 !in s[..i];
      assert MatchAt(s, END_OF_HEADERS, i) && NulFree(s[..i]);
    }
  }

  /** A request with a NUL in front of the end of its headers is never recognised as complete. */
  lemma NulHidesEnd()
    ensures Contains([NUL] + END_OF_HEADERS, END_OF_HEADERS)
    ensures !Contains(CString([NUL] + END_OF_HEADERS), END_OF_HEADERS)
  {
    var s := [NUL] + END_OF_HEADERS;
    assert MatchAt(s, END_OF_HEADERS, 1);
    assert CString(s) == [];
  }

  // ---------- Numbers in decimal ----------

  function Digits(n: nat): (r: seq<Byte>)
    ensures r != [] && forall i :: 0 <= i < |r| ==> DIGIT_ZERO <= r[i] <= DIGIT_ZERO + 9
  {
    (if n < 10 then [] else Digits(n / 10)) + [DIGIT_ZERO + n % 10]
  }

  /** `%d`. */
  function Decimal(n: int): seq<Byte> {
    if n < 0 then [MINUS] + Digits(-n) else Digits(n)
  }

  /** The number that a reader makes of a run of digits. */
  function ParseDigits(s: seq<Byte>): int {
    if s == [] then 0 else 10 * ParseDigits(s[..|s| - 1]) + (s[|s| - 1] - DIGIT_ZERO)
  }

  lemma {:induction false} DigitsRoundTrip(n: nat)
    ensures ParseDigits(Digits(n)) == n
  {
    var front := if n < 10 then [] else Digits(n / 10);
    assert Digits(n)[..|front|] == front;
    if n >= 10 {
      DigitsRoundTrip(n / 10);
    }
  }

  /** Decimal digits, without leading zeros. */
  lemma {:induction false} DigitsCanonical(n: nat)
    ensures forall i :: 0 <= i < |Digits(n)| ==> 48 <= Digits(n)[i] <= 57
    ensures n > 0 ==> Digits(n)[0] != 48
    ensures n == 0 ==> Digits(n) == [48]
  {
    if n >= 10 {
      DigitsCanonical(n / 10);
    }
  }

  /** A reader's number: digits with an optional sign. */
  function ParseDecimal(s: seq<Byte>): int {
    if s != [] && s[0] == MINUS then -ParseDigits(s[1..]) else ParseDigits(s)
  }

  lemma DecimalRoundTrip(n: int)
    ensures ParseDecimal(Decimal(n)) == n
  {
    hide Digits, ParseDigits;
    if n < 0 {
      DigitsRoundTrip(-n);
      assert Decimal(n)[1..] == Digits(-n);
    } else {
      DigitsRoundTrip(n);
    }
  }

  /** The conversion of `ftell`'s result to `int`. */
  function ToInt32(n: int): (r: int)
    ensures -0x8000_0000 <= r < 0x8000_0000 && (r - n) % 0x1_0000_0000 == 0
  {
    (n + 0x8000_0000) % TWO_TO_32 - 0x8000_0000
  }

  /** The status code of a response (section 6.1 of RFC 1945), read from its first line. */
  function Status(response: seq<Byte>): int
    requires |response| >= 12
  {
    ParseDigits(response[9..12])
  }

  /** A missing file is told by status 404. */
  lemma NotFoundStatus()
    ensures |NOT_FOUND| >= 12 && NOT_FOUND[..4] == [72, 84, 84, 80] && NOT_FOUND[9..12] == [52, 48, 52]
    ensures Status(NOT_FOUND) == 404 && Contains(NOT_FOUND, [13, 10, 13, 10])
  {
    var line, mime := "HTTP/1.0 404 FILE NOT FOUND\r\n", "Content-type: text/html\r\n\r\n";
    assert line[..4] == "HTTP" && line[9..12] == "404" && mime[23..] == "\r\n\r\n";
    BytesSlice(line, 0, 4);
    BytesSlice(line, 9, 12);
    BytesSlice(mime, 23, |mime|);
    Encodings();
    assert |line| == 29 && |mime| == 27;
    hide Bytes;
    assert NOT_FOUND[..4] == NOT_FOUND_STATUS[0..4] && NOT_FOUND[9..12] == NOT_FOUND_STATUS[9..12];
    assert NOT_FOUND[52..56] == NOT_FOUND_TYPE[23..27];
    assert MatchAt(NOT_FOUND, [13, 10, 13, 10], 52);
    ThreeDigits(NOT_FOUND[9..12]);
  }

  lemma BytesSlice(s: string, i: nat, j: nat)
    requires i <= j <= |s|
    ensures Bytes(s)[i..j] == Bytes(s[i..j])
  {
  }

  lemma Encodings()
    ensures Bytes("HTTP") == [72, 84, 84, 80] && Bytes("404") == [52, 48, 52] && Bytes("200") == [50, 48, 48]
    ensures Bytes("\r\n\r\n") == [13, 10, 13, 10] && Bytes(" \r\n\r\n") == [32, 13, 10, 13, 10]
  {
    assert forall s: string :: |Bytes(s)| == |s|;
  }

  /** A file that exists by status 200. */
  lemma OkStatus(fileSize: int)
    ensures var h := OkHeader(fileSize);
      && |h| >= 12 && h[..4] == [72, 84, 84, 80] && h[9..12] == [50, 48, 48] && Status(h) == 200
      && Contains(h, [13, 10, 13, 10])
  {
    hide Decimal;
    var h := OkHeader(fileSize);
    OkConstants();
    hide Bytes;
    assert h[9..12] == OK_BEFORE[9..12] && h[..4] == OK_BEFORE[..4];
    ThreeDigits(h[9..12]);
    assert h[|h| - 4..|h| - 4 + 4] == OK_AFTER[1..5];
    assert MatchAt(h, [13, 10, 13, 10], |h| - 4);
  }

  lemma OkConstants()
    ensures |OK_BEFORE| >= 12 && OK_BEFORE[..4] == [72, 84, 84, 80] && OK_BEFORE[9..12] == [50, 48, 48]
    ensures |OK_AFTER| == 5 && OK_AFTER[1..5] == [13, 10, 13, 10]
  {
    var line := "HTTP/1.0 200 OK\r\n";
    assert line[..4] == "HTTP" && line[9..12] == "200";
    BytesSlice(line, 0, 4);
    BytesSlice(line, 9, 12);
    Encodings();
    assert |line| == 17;
    hide Bytes;
    assert OK_BEFORE[..4] == OK_STATUS[0..4] && OK_BEFORE[9..12] == OK_STATUS[9..12];
  }

  lemma ThreeDigits(s: seq<Byte>)
    requires |s| == 3
    ensures ParseDigits(s) == 100 * (s[0] as int - 48) + 10 * (s[1] as int - 48) + (s[2] as int - 48)
  {
    assert s[..2][..1] == [s[0]] && s[..2] == [s[0], s[1]];
    assert ParseDigits([s[0]]) == s[0] as int - 48;
    assert ParseDigits([s[0], s[1]]) == 10 * (s[0] as int - 48) + (s[1] as int - 48);
  }

  function OkHeader(fileSize: int): seq<Byte> {
    OK_BEFORE + Decimal(fileSize) + OK_AFTER
  }

  /** The value between the fixed parts of a success header. */
  function ContentLength(header: seq<Byte>): int
    requires |header| >= |OK_BEFORE| + |OK_AFTER|
  {
    ParseDecimal(header[|OK_BEFORE|..|header| - |OK_AFTER|])
  }

  /** The header announces the length of the file exactly when the length fits an `int`. */
  lemma HonestLength(length: nat)
    ensures |OkHeader(ToInt32(length))| >= |OK_BEFORE| + |OK_AFTER|
    ensures ContentLength(OkHeader(ToInt32(length))) == length <==> length < 0x8000_0000
  {
    hide Bytes, Decimal, ParseDecimal;
    var n := ToInt32(length);
    DecimalRoundTrip(n);
    Middle(OK_BEFORE, Decimal(n), OK_AFTER);
    WrapsBeyondInt(length);
  }

  lemma Middle(a: seq<Byte>, m: seq<Byte>, b: seq<Byte>)
    ensures |a + m + b| >= |a| + |b| && (a + m + b)[|a|..|a + m + b| - |b|] == m
  {
  }

  lemma WrapsBeyondInt(length: nat)
    ensures ToInt32(length) == length <==> length < 0x8000_0000
  {
  }
}
