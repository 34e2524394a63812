/** internal/control/cursor.go: opaque page cursors. Strings are bytes, one
    char each; a byte is below 256. */
module Cursor {
  import opened Text

  type Byte = c: char | c < '\U{100}' witness 'a'
  type Bytes = seq<Byte>

  // ------------------------------------------------- RFC 4648 section 5, unpadded

  type Sextet = v: int | 0 <= v < 64

  /** The character of a 6-bit value. */
  function Digit64(v: Sextet): (c: Byte)
    ensures Value64(c) == v
  {
    if v < 26 then 'A' + v as char
    else if v < 52 then 'a' + (v - 26) as char
    else if v < 62 then '0' + (v - 52) as char
    else if v == 62 then '-'
    else '_'
  }

  /** The value of a character, or -1 outside the alphabet. */
  function Value64(c: char): (v: int)
    ensures -1 <= v < 64
  {
    if 'A' <= c <= 'Z' then c as int - 'A' as int
    else if 'a' <= c <= 'z' then c as int - 'a' as int + 26
    else if '0' <= c <= '9' then c as int - '0' as int + 52
    else if c == '-' then 62
    else if c == '_' then 63
    else -1
  }

  /** The four 6-bit values of three bytes. */
  function Sextet0(b0: Byte): Sextet { b0 as int / 4 }

  function Sextet1(b0: Byte, b1: Byte): Sextet { b0 as int % 4 * 16 + b1 as int / 16 }

  function Sextet2(b1: Byte, b2: Byte): Sextet { b1 as int % 16 * 4 + b2 as int / 64 }

  function Sextet3(b2: Byte): Sextet { b2 as int % 64 }

  /** base64.RawURLEncoding.EncodeToString: groups of three, and a last one of
      one or two filled up with zero bits. */
  function Encode(b: Bytes): (s: Bytes) {
    if |b| == 0 then ""
    else if |b| == 1 then [Digit64(Sextet0(b[0])), Digit64(Sextet1(b[0], '\0'))]
    else if |b| == 2 then
      [Digit64(Sextet0(b[0])), Digit64(Sextet1(b[0], b[1])), Digit64(Sextet2(b[1], '\0'))]
    else
      [Digit64(Sextet0(b[0])), Digit64(Sextet1(b[0], b[1])), Digit64(Sextet2(b[1], b[2])), Digit64(Sextet3(b[2]))]
        + Encode(b[3..])
  }

  /** The decoder drops line breaks wherever they stand. */
  function Unbroken(s: string): string {
    if s == "" then ""
    else if s[0] in {'\r', '\n'} then Unbroken(s[1..])
    else [s[0]] + Unbroken(s[1..])
  }

  function Byte0(v0: Sextet, v1: Sextet): Byte { (v0 * 4 + v1 / 16) as char }

  function Byte1(v1: Sextet, v2: Sextet): Byte { (v1 % 16 * 16 + v2 / 4) as char }

  function Byte2(v2: Sextet, v3: Sextet): Byte { (v2 % 4 * 64 + v3) as char }

  /** Without line breaks: whole groups of four, and a last one of two or
      three whose trailing bits are ignored. */
  function DecodeGroups(s: string): Option<Bytes> {
    if s == "" then Some([])
    else if |s| == 1 || Value64(s[0]) < 0 || Value64(s[1]) < 0 then None
    else
      var v0, v1 := Value64(s[0]), Value64(s[1]);
      if |s| == 2 then Some([Byte0(v0, v1)])
      else if Value64(s[2]) < 0 then None
      else
        var v2 := Value64(s[2]);
        if |s| == 3 then Some([Byte0(v0, v1), Byte1(v1, v2)])
        else if Value64(s[3]) < 0 then None
        else
          var rest := DecodeGroups(s[4..]);
          if rest.None? then None
          else Some([Byte0(v0, v1), Byte1(v1, v2), Byte2(v2, Value64(s[3]))] + rest.value)
  }

  /** base64.RawURLEncoding.DecodeString. */
  function Decode(s: string): Option<Bytes> {
    DecodeGroups(Unbroken(s))
  }

  lemma {:induction false} UnbrokenStays(s: string)
    requires '\r' !in s && '\n' !in s
    ensures Unbroken(s) == s
  {
    if s != "" {
      UnbrokenStays(s[1..]);
      assert s == [s[0]] + s[1..];
    }
  }

  lemma {:induction false} EncodeAlphabet(b: Bytes)
    ensures forall c <- Encode(b) :: Value64(c) >= 0
    decreases |b|
  {
    if |b| > 2 { EncodeAlphabet(b[3..]); }
  }

  lemma BytesBack(b0: Byte, b1: Byte, b2: Byte)
    ensures Byte0(Sextet0(b0), Sextet1(b0, b1)) == b0
    ensures Byte1(Sextet1(b0, b1), Sextet2(b1, b2)) == b1
    ensures Byte2(Sextet2(b1, b2), Sextet3(b2)) == b2
  {
  }

  /** `s` starts with the four characters of three bytes. */
  predicate Starts(s: string, b0: Byte, b1: Byte, b2: Byte) {
    && |s| > 3
    && Value64(s[0]) == Sextet0(b0) && Value64(s[1]) == Sextet1(b0, b1)
    && Value64(s[2]) == Sextet2(b1, b2) && Value64(s[3]) == Sextet3(b2)
  }

  lemma EncodeStarts(b: Bytes)
    requires |b| >= 3
    ensures Starts(Encode(b), b[0], b[1], b[2]) && Encode(b)[4..] == Encode(b[3..])
  {
    var group := [Digit64(Sextet0(b[0])), Digit64(Sextet1(b[0], b[1])),
                  Digit64(Sextet2(b[1], b[2])), Digit64(Sextet3(b[2]))];
    assert Encode(b) == group + Encode(b[3..]);
  }

  lemma GroupDecodes(s: string, v0: Sextet, v1: Sextet, v2: Sextet, v3: Sextet)
    requires |s| > 3
    requires Value64(s[0]) == v0 && Value64(s[1]) == v1 && Value64(s[2]) == v2 && Value64(s[3]) == v3
    requires DecodeGroups(s[4..]).Some?
    ensures DecodeGroups(s) ==
      Some([Byte0(v0, v1), Byte1(v1, v2), Byte2(v2, v3)] + DecodeGroups(s[4..]).value)
  {
  }

  lemma {:induction false} GroupsBack(b: Bytes)
    ensures DecodeGroups(Encode(b)) == Some(b)
    decreases |b|
  {
    if |b| == 0 {
    } else if |b| == 1 {
      OneByteBack(b[0]);
      assert b == [b[0]];
    } else if |b| == 2 {
      TwoBytesBack(b[0], b[1]);
      assert b == [b[0], b[1]];
    } else {
      GroupsBack(b[3..]);
      ThreeBytesBack(b);
    }
  }

  lemma OneByteBack(b0: Byte)
    ensures DecodeGroups(Encode([b0])) == Some([b0])
  {
    BytesBack(b0, '\0', '\0');
  }

  lemma TwoBytesBack(b0: Byte, b1: Byte)
    ensures DecodeGroups(Encode([b0, b1])) == Some([b0, b1])
  {
    BytesBack(b0, b1, '\0');
  }

  lemma ThreeBytesBack(b: Bytes)
    requires |b| >= 3 && DecodeGroups(Encode(b[3..])) == Some(b[3..])
    ensures DecodeGroups(Encode(b)) == Some(b)
  {
    EncodeStarts(b);
    GroupDecodes(Encode(b), Sextet0(b[0]), Sextet1(b[0], b[1]), Sextet2(b[1], b[2]), Sextet3(b[2]));
    BytesBack(b[0], b[1], b[2]);
    ThreeAndRest(b);
  }

  lemma ThreeAndRest(b: Bytes)
    requires |b| >= 3
    ensures b == [b[0], b[1], b[2]] + b[3..]
  {
  }

  lemma DecodeEncode(b: Bytes)
    ensures Decode(Encode(b)) == Some(b)
  {
    EncodeAlphabet(b);
    UnbrokenStays(Encode(b));
    GroupsBack(b);
  }

  /** `s` is as long as the code of `n` bytes, and ends in zero bits past the last. */
  predicate ZeroBits(n: nat, s: string) {
    && |s| == (4 * n + 2) / 3
    && (n % 3 == 1 ==> Value64(s[|s|-1]) % 16 == 0)
    && (n % 3 == 2 ==> Value64(s[|s|-1]) % 4 == 0)
  }

  lemma ZeroBitsMore(n: nat, s: string, rest: string)
    requires |s| >= 4 && s[4..] == rest && ZeroBits(n, rest)
    ensures ZeroBits(n + 3, s)
  {
    if rest != "" { assert s[|s|-1] == s[4..][|rest|-1]; }
  }

  /** RFC 4648 section 3.5: no padding, and the bits past the last byte are zero. */
  lemma {:induction false} EncodeCanonical(b: Bytes)
    ensures ZeroBits(|b|, Encode(b))
  {
    if |b| > 2 {
      EncodeCanonical(b[3..]);
      EncodeStarts(b);
      ZeroBitsMore(|b| - 3, Encode(b), Encode(b[3..]));
    }
  }

  // ------------------------------------------------------------------- cursors

  function EncodeCursor(kind: Bytes, key: Bytes): Bytes {
    Encode(kind + ":" + key)
  }

  /** decodeCursor: None is "bad cursor". */
  function DecodeCursor(kind: string, cursor: string): Option<string> {
    var raw := Decode(cursor);
    if raw.None? then None
    else
      var (k, key, ok) := Cut(raw.value, ':');
      if !ok || k != kind || key == "" then None else Some(key)
  }

  /** A command reads back the key of its own cursor, when there is one, and
      no other kind's. */
  lemma OwnCursorOnly(kind: Bytes, key: Bytes, reader: string)
    requires ':' !in kind
    ensures DecodeCursor(reader, EncodeCursor(kind, key)) ==
      if reader == kind && key != "" then Some(key) else None
  {
    DecodeEncode(kind + ":" + key);
    CutAt(kind, key, ':');
  }

  // --------------------------------------------------------------------- pages

  /** queryLimit: one row beyond the page; 0 asks for every row. */
  function QueryLimit(limit: nat): nat {
    if limit == 0 then 0 else limit + 1
  }

  /** What a store that was asked for `most` rows returns of `rows`. */
  function Fetched<T>(rows: seq<T>, most: nat): seq<T> {
    if most == 0 || |rows| <= most then rows else rows[..most]
  }

  /** trimPage. */
  function TrimPage<T>(limit: nat, items: seq<T>, kind: Bytes, key: T -> Bytes): (seq<T>, Bytes) {
    if limit == 0 || |items| <= limit then (items, "")
    else (items[..limit], EncodeCursor(kind, key(items[limit - 1])))
  }

  /** Asking for one row more than the page makes the page, and the cursor,
      that all the rows would have made; and there is a cursor exactly when
      rows are left. */
  lemma ProbeRowSuffices<T>(limit: nat, rows: seq<T>, kind: Bytes, key: T -> Bytes)
    ensures TrimPage(limit, Fetched(rows, QueryLimit(limit)), kind, key) == TrimPage(limit, rows, kind, key)
    ensures limit > 0 ==> |Fetched(rows, QueryLimit(limit))| <= limit + 1
    ensures TrimPage(limit, rows, kind, key).1 == "" <==> TrimPage(limit, rows, kind, key).0 == rows
  {
    if 0 < limit < |rows| {
      assert rows[..limit + 1][..limit] == rows[..limit];
      assert |EncodeCursor(kind, key(rows[limit - 1]))| > 0;
    }
  }
}
