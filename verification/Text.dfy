/** The string functions of Go's strings and strconv that the modelled code
    calls. A string here is its bytes, one char each, unless a file says otherwise. */
module Text {

  datatype Option<+T> = None | Some(value: T)

  /** strings.Cut at one character: what is before it, what is after, and whether it is there. */
  function Cut(s: string, sep: char): (r: (string, string, bool))
    ensures r.2 ==> s == r.0 + [sep] + r.1 && sep !in r.0
    ensures !r.2 ==> r.0 == s && r.1 == "" && sep !in s
  {
    if s == "" then ("", "", false)
    else if s[0] == sep then ("", s[1..], true)
    else
      var (a, b, found) := Cut(s[1..], sep);
      ([s[0]] + a, b, found)
  }

  lemma {:induction false} CutAt(a: string, b: string, sep: char)
    requires sep !in a
    ensures Cut(a + [sep] + b, sep) == (a, b, true)
  {
    if a == "" {
      assert (a + [sep] + b)[1..] == b;
    } else {
      assert (a + [sep] + b)[1..] == a[1..] + [sep] + b;
      CutAt(a[1..], b, sep);
      assert [a[0]] + a[1..] == a;
    }
  }

  lemma CutAbsent(s: string, sep: char)
    requires sep !in s
    ensures Cut(s, sep) == (s, "", false)
  {
  }

  /** strings.Split at one character. */
  function Split(s: string, sep: char): (parts: seq<string>)
    ensures |parts| > 0 && Join(parts, [sep]) == s
    ensures forall p <- parts :: sep !in p
    decreases |s|
  {
    var (a, b, found) := Cut(s, sep);
    if found then [a] + Split(b, sep) else [s]
  }

  function Join(parts: seq<string>, sep: string): string {
    if |parts| == 0 then ""
    else if |parts| == 1 then parts[0]
    else parts[0] + sep + Join(parts[1..], sep)
  }

  /** unicode.IsSpace. */
  predicate IsSpace(c: char) {
    c in {' ', '\t', '\n', '\U{0B}', '\U{0C}', '\r', '\U{85}', '\U{A0}', '\U{1680}', '\U{2028}', '\U{2029}',
          '\U{202F}', '\U{205F}', '\U{3000}'}
    || '\U{2000}' <= c <= '\U{200A}'
  }

  predicate IsWord(w: string) {
    w != "" && forall c <- w :: !IsSpace(c)
  }

  /** strings.Fields: the maximal runs of characters that are not space. */
  function Fields(s: string): (ws: seq<string>)
    ensures forall w <- ws :: IsWord(w)
  {
    FieldsFrom(s, "")
  }

  function FieldsFrom(s: string, cur: string): (ws: seq<string>)
    requires forall c <- cur :: !IsSpace(c)
    ensures forall w <- ws :: IsWord(w)
  {
    if s == "" then (if cur == "" then [] else [cur])
    else if !IsSpace(s[0]) then FieldsFrom(s[1..], cur + [s[0]])
    else if cur == "" then FieldsFrom(s[1..], "")
    else [cur] + FieldsFrom(s[1..], "")
  }

  lemma {:induction false} FieldsOfWord(w: string, rest: string, cur: string)
    requires forall c <- cur + w :: !IsSpace(c)
    requires cur + w != ""
    requires rest == "" || IsSpace(rest[0])
    ensures FieldsFrom(w + rest, cur) == [cur + w] + (if rest == "" then [] else FieldsFrom(rest[1..], ""))
  {
    if w == "" {
      assert w + rest == rest && cur + w == cur;
    } else {
      assert (w + rest)[1..] == w[1..] + rest;
      assert cur + [w[0]] + w[1..] == cur + w;
      FieldsOfWord(w[1..], rest, cur + [w[0]]);
    }
  }

  /** Words joined by single spaces come back. */
  lemma {:induction false} FieldsOfJoin(ws: seq<string>)
    requires forall w <- ws :: IsWord(w)
    ensures Fields(Join(ws, " ")) == ws
  {
    if |ws| > 0 {
      assert IsWord(ws[0]);
      if |ws| == 1 {
        assert ws[0] + "" == ws[0] && "" + ws[0] == ws[0];
        FieldsOfWord(ws[0], "", "");
        assert ws == [ws[0]];
      } else {
        var rest := " " + Join(ws[1..], " ");
        assert ws[0] + " " + Join(ws[1..], " ") == ws[0] + rest;
        assert rest[1..] == Join(ws[1..], " ");
        assert "" + ws[0] == ws[0];
        FieldsOfWord(ws[0], rest, "");
        FieldsOfJoin(ws[1..]);
        assert [ws[0]] + ws[1..] == ws;
      }
    }
  }

  // ------------------------------------------------------------------- numbers

  predicate IsDigit(c: char) { '0' <= c <= '9' }

  function Digit(d: nat): (c: char)
    requires d < 10
    ensures IsDigit(c) && Value([c]) == d
  {
    assert Value([('0' as int + d) as char]) == d;
    ('0' as int + d) as char
  }

  /** strconv.Itoa of a natural number. */
  function Itoa(n: nat): (s: string)
    ensures s != "" && (forall c <- s :: IsDigit(c))
  {
    if n < 10 then [Digit(n)] else Itoa(n / 10) + [Digit(n % 10)]
  }

  function Value(s: string): nat
    requires forall c <- s :: IsDigit(c)
  {
    if s == "" then 0 else
      assert IsDigit(s[|s|-1]);
      10 * Value(s[..|s|-1]) + (s[|s|-1] as int - '0' as int)
  }

  lemma {:induction false} ValueOfItoa(n: nat)
    ensures Value(Itoa(n)) == n
  {
    if n >= 10 {
      ValueOfItoa(n / 10);
      var s := Itoa(n);
      assert s[..|s|-1] == Itoa(n / 10);
      var last := [Digit(n % 10)];
      assert last[..0] == "";
      assert Value(last) == n % 10;
    }
  }

  const INT64_MAX := 0x7fff_ffff_ffff_ffff

  /** strconv.Atoi: an optional sign, then digits, within 64 bits. */
  function Atoi(s: string): Option<int> {
    var signed := s != "" && (s[0] == '-' || s[0] == '+');
    var digits := if signed then s[1..] else s;
    if digits == "" || !(forall c <- digits :: IsDigit(c)) then None
    else
      var n: int := Value(digits);
      var v := if signed && s[0] == '-' then -n else n;
      if -INT64_MAX - 1 <= v <= INT64_MAX then Some(v) else None
  }

  lemma AtoiOfItoa(n: nat)
    requires n <= INT64_MAX
    ensures Atoi(Itoa(n)) == Some(n)
  {
    ValueOfItoa(n);
    assert IsDigit(Itoa(n)[0]);
  }

  function Zeros(k: nat): (s: string)
    ensures |s| == k && forall c <- s :: IsDigit(c)
  {
    if k == 0 then "" else ['0'] + Zeros(k - 1)
  }

  lemma {:induction false} ZerosEnd(k: nat)
    requires k > 0
    ensures Zeros(k) == Zeros(k - 1) + ['0']
  {
    if k > 1 { ZerosEnd(k - 1); }
  }

  lemma {:induction false} PaddedValue(k: nat, n: nat)
    ensures Value(Zeros(k) + Itoa(n)) == n
    decreases n, k
  {
    var s, z := Zeros(k) + Itoa(n), Zeros(k);
    if n >= 10 {
      PaddedValue(k, n / 10);
      assert s[..|s|-1] == z + Itoa(n / 10);
      DigitValue(n % 10);
    } else if k == 0 {
      assert s == [Digit(n)];
    } else {
      assert s[..|s|-1] == z;
      ZerosValue(k);
      DigitValue(n);
    }
  }

  lemma DigitValue(d: nat)
    requires d < 10
    ensures Digit(d) as int - '0' as int == d
  {
    assert [Digit(d)][..0] == "";
  }

  lemma {:induction false} ZerosValue(k: nat)
    ensures Value(Zeros(k)) == 0
  {
    if k > 0 {
      ZerosEnd(k);
      assert (Zeros(k - 1) + ['0'])[..k-1] == Zeros(k - 1);
      ZerosValue(k - 1);
    }
  }

  /** Digits are a number printed, after zeros. */
  lemma {:induction false} DigitsPad(s: string) returns (k: nat)
    requires s != "" && forall c <- s :: IsDigit(c)
    ensures s == Zeros(k) + Itoa(Value(s))
  {
    var init, c := s[..|s|-1], s[|s|-1];
    assert c in s && IsDigit(c);
    var d := c as int - '0' as int;
    DigitValue(d);
    assert Digit(d) == c && s == init + [c];
    k := 0;
    if init == "" { assert Value(s) == d; return; }
    k := DigitsPad(init);
    var n := Value(init);
    assert Value(s) == 10 * n + d;
    if n == 0 {
      ZerosEnd(k + 1);
      k := k + 1;
    } else {
      assert (10 * n + d) / 10 == n && (10 * n + d) % 10 == d;
    }
  }

  /** The texts of a natural number: printed, after any zeros. */
  ghost predicate Digits(s: string, n: nat) {
    exists k: nat :: s == Zeros(k) + Itoa(n)
  }

  predicate IsNumber(s: string, n: nat) {
    s != "" && (forall c <- s :: IsDigit(c)) && Value(s) == n
  }

  lemma DigitsRead(s: string, n: nat)
    ensures Digits(s, n) <==> IsNumber(s, n)
  {
    if Digits(s, n) {
      var k: nat :| s == Zeros(k) + Itoa(n);
      PaddedValue(k, n);
    } else if IsNumber(s, n) {
      var k := DigitsPad(s);
      assert false;
    }
  }

  lemma AtoiNumbers(s: string, v: int)
    ensures Atoi(s) == Some(v) <==>
      && -INT64_MAX - 1 <= v <= INT64_MAX
      && ((v >= 0 && (IsNumber(s, v) || (s != "" && s[0] == '+' && IsNumber(s[1..], v))))
          || (v <= 0 && s != "" && s[0] == '-' && IsNumber(s[1..], -v)))
  {
    if s != "" {
      assert s[0] in s;
      assert !IsDigit('+') && !IsDigit('-');
    }
  }

  /** What Atoi takes: a number after an optional sign, if it fits 64 bits. */
  lemma AtoiReads(s: string, v: int)
    ensures Atoi(s) == Some(v) <==>
      && -INT64_MAX - 1 <= v <= INT64_MAX
      && ((v >= 0 && (Digits(s, v) || (s != "" && s[0] == '+' && Digits(s[1..], v))))
          || (v <= 0 && s != "" && s[0] == '-' && Digits(s[1..], -v)))
  {
    AtoiNumbers(s, v);
    forall n: nat ensures Digits(s, n) == IsNumber(s, n) { DigitsRead(s, n); }
    if s != "" {
      forall n: nat ensures Digits(s[1..], n) == IsNumber(s[1..], n) { DigitsRead(s[1..], n); }
    }
  }

  lemma ItoaInjective(a: nat, b: nat)
    requires Itoa(a) == Itoa(b)
    ensures a == b
  {
    ValueOfItoa(a);
    ValueOfItoa(b);
  }
}
