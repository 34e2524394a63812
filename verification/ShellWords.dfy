/** Command lines that cross SSH: internal/protocol/tokenize.go splits what
    cmd/gitbay/ssh.go, internal/control/cursor.go and cmd/gitbay-runner/report.go
    quote. Strings are bytes, one char each. */
module ShellWords {
  import opened Text

  // ------------------------------------------------------------------- quoting

  /** bareWord: [A-Za-z0-9@%+=:,./_!-] */
  predicate BareChar(c: char) {
    || 'A' <= c <= 'Z' || 'a' <= c <= 'z' || IsDigit(c)
    || c in {'@', '%', '+', '=', ':', ',', '.', '/', '_', '!', '-'}
  }

  predicate BareWord(s: string) {
    s != "" && forall c <- s :: BareChar(c)
  }

  /** strings.ReplaceAll(s, "'", `'\''`). */
  function Escape(s: string): string {
    if s == "" then ""
    else (if s[0] == '\'' then ['\'', '\\', '\'', '\''] else [s[0]]) + Escape(s[1..])
  }

  function Quote(s: string): string {
    ['\''] + Escape(s) + ['\'']
  }

  /** shellQuote, and shellWord. */
  function ShellQuote(arg: string): string {
    if BareWord(arg) then arg else Quote(arg)
  }

  // ----------------------------------------------------------------- the server

  datatype Words = Ok(argv: seq<string>) | Bad

  function Cons(w: string, rest: Words): Words {
    if rest.Ok? then Ok([w] + rest.argv) else Bad
  }

  predicate Blank(c: char) { c == ' ' || c == '\t' || c == '\n' }

  predicate Meta(c: char) {
    c in {'$', '`', ';', '&', '|', '<', '>', '(', ')', '*', '?', '[', '#', '~'}
  }

  /** doubleQuoted: from just past the opening quote, the text up to the
      closing one and what follows it. */
  function DoubleQuoted(s: string): (r: Option<(string, string)>)
    ensures r.Some? ==> |r.value.1| < |s|
  {
    if s == "" then None
    else if s[0] == '"' then Some(("", s[1..]))
    else
      var escaped := s[0] == '\\' && |s| > 1 && s[1] in {'\\', '"', '$', '`'};
      var (c, rest) := if escaped then (s[1], s[2..]) else (s[0], s[1..]);
      var r := DoubleQuoted(rest);
      if r.None? then None else Some(([c] + r.value.0, r.value.1))
  }

  /** The words of `s` when `cur` has been read of the first of them. */
  function WordsFrom(s: string, cur: string, inWord: bool): Words
    decreases |s|
  {
    if s == "" then Ok(if inWord then [cur] else [])
    else if Blank(s[0]) then
      if inWord then Cons(cur, WordsFrom(s[1..], "", false)) else WordsFrom(s[1..], "", false)
    else if s[0] == '\'' then
      var (text, rest, closed) := Cut(s[1..], '\'');
      CutShorter(s[1..], '\'');
      if closed then WordsFrom(rest, cur + text, true) else Bad
    else if s[0] == '"' then
      var r := DoubleQuoted(s[1..]);
      if r.Some? then WordsFrom(r.value.1, cur + r.value.0, true) else Bad
    else if s[0] == '\\' then
      if |s| > 1 then WordsFrom(s[2..], cur + [s[1]], true) else Bad
    else if Meta(s[0]) then Bad
    else WordsFrom(s[1..], cur + [s[0]], true)
  }

  lemma CutShorter(s: string, sep: char)
    ensures |Cut(s, sep).1| <= |s|
  {
  }

  /** One word read, and where reading goes on. */
  datatype Turn = Stop | Turn(i: nat, text: string)

  /** A quoted or escaped stretch: what Tokenize adds to the word for it. */
  method Stretch(s: string, i: nat) returns (t: Turn)
    requires i < |s| && s[i] in {'\'', '"', '\\'}
    ensures t.Turn? ==> i < t.i <= |s|
    ensures t.Turn? ==> forall cur, inWord ::
      WordsFrom(s[i..], cur, inWord) == WordsFrom(s[t.i..], cur + t.text, true)
    ensures t.Stop? ==> forall cur, inWord :: WordsFrom(s[i..], cur, inWord) == Bad
  {
    var rest := s[i..];
    assert rest[1..] == s[i+1..] && (|rest| > 1 ==> rest[2..] == s[i+2..]);
    if s[i] == '\'' {
      var (text, tail, closed) := Cut(s[i+1..], '\'');
      if !closed { return Stop; }
      t := Turn(i + |text| + 2, text);
      assert s[t.i..] == tail;
    } else if s[i] == '"' {
      var q := DoubleQuoted(s[i+1..]);
      if q.None? { return Stop; }
      DoubleQuotedSuffix(s[i+1..]);
      t := Turn(|s| - |q.value.1|, q.value.0);
      assert s[t.i..] == q.value.1;
    } else {
      if i + 1 >= |s| { return Stop; }
      t := Turn(i + 2, [s[i+1]]);
    }
  }

  /** Tokenize. */
  method Tokenize(s: string) returns (r: Words)
    ensures r == WordsFrom(s, "", false)
  {
    var argv: seq<string> := [];
    var cur := "";
    var inWord := false;
    var i := 0;
    while i < |s|
      invariant 0 <= i <= |s| && (inWord || cur == "")
      invariant WordsFrom(s, "", false) == Prepend(argv, WordsFrom(s[i..], cur, inWord))
      decreases |s| - i
    {
      var c := s[i];
      assert s[i..][1..] == s[i+1..];
      if Blank(c) {
        if inWord {
          PrependOne(argv, cur, WordsFrom(s[i+1..], "", false));
          argv := argv + [cur];
          cur := "";
          inWord := false;
        }
        i := i + 1;
      } else if c == '\'' || c == '"' || c == '\\' {
        var t := Stretch(s, i);
        if t.Stop? { return Bad; }
        inWord := true;
        cur := cur + t.text;
        i := t.i;
      } else if Meta(c) {
        return Bad;
      } else {
        inWord := true;
        cur := cur + [c];
        i := i + 1;
      }
    }
    assert s[i..] == "";
    r := Ok(if inWord then argv + [cur] else argv);
  }

  function Prepend(argv: seq<string>, rest: Words): Words {
    if rest.Ok? then Ok(argv + rest.argv) else Bad
  }

  lemma PrependOne(argv: seq<string>, w: string, rest: Words)
    ensures Prepend(argv, Cons(w, rest)) == Prepend(argv + [w], rest)
  {
    if rest.Ok? { assert argv + ([w] + rest.argv) == (argv + [w]) + rest.argv; }
  }

  lemma {:induction false} DoubleQuotedSuffix(s: string)
    requires DoubleQuoted(s).Some?
    ensures var t := DoubleQuoted(s).value.1; s[|s| - |t|..] == t
  {
    if s[0] != '"' {
      var rest := if s[0] == '\\' && |s| > 1 && s[1] in {'\\', '"', '$', '`'} then s[2..] else s[1..];
      DoubleQuotedSuffix(rest);
      var t := DoubleQuoted(s).value.1;
      assert rest[|rest| - |t|..] == s[|s| - |t|..];
    }
  }

  // ---------------------------------------------------------------- round trips

  /** The two ways an argument is written. */
  ghost predicate Written(text: string, arg: string) {
    (BareWord(arg) && text == arg) || text == Quote(arg)
  }

  lemma {:induction false} BareReads(w: string, rest: string, cur: string, inWord: bool)
    requires w != "" && forall c <- w :: BareChar(c)
    ensures WordsFrom(w + rest, cur, inWord) == WordsFrom(rest, cur + w, true)
  {
    var s := w + rest;
    assert s[1..] == w[1..] + rest && s[0] == w[0] && BareChar(s[0]);
    assert WordsFrom(s, cur, inWord) == WordsFrom(s[1..], cur + [w[0]], true);
    if |w| == 1 {
      assert s[1..] == rest && cur + [w[0]] == cur + w;
    } else {
      assert cur + [w[0]] + w[1..] == cur + w;
      BareReads(w[1..], rest, cur + [w[0]], true);
    }
  }

  lemma {:induction false} EscapeCut(s: string)
    ensures var (a, b, found) := Cut(s, '\'');
            Escape(s) == if found then a + ['\'', '\\', '\'', '\''] + Escape(b) else s
  {
    if s != "" && s[0] != '\'' {
      EscapeCut(s[1..]);
      var (a, b, found) := Cut(s[1..], '\'');
      if found {
        assert [s[0]] + (a + ['\'', '\\', '\'', '\''] + Escape(b)) == ([s[0]] + a) + ['\'', '\\', '\'', '\''] + Escape(b);
      } else {
        assert [s[0]] + s[1..] == s;
      }
    } else if s != "" {
      assert "" + ['\'', '\\', '\'', '\''] + Escape(s[1..]) == Escape(s);
    }
  }

  lemma SingleQuoted(a: string, tail: string, cur: string, inWord: bool)
    requires '\'' !in a
    ensures WordsFrom(['\''] + (a + ['\''] + tail), cur, inWord) == WordsFrom(tail, cur + a, true)
  {
    var s := ['\''] + (a + ['\''] + tail);
    assert s[1..] == a + ['\''] + tail;
    CutAt(a, tail, '\'');
  }

  lemma EscapedQuote(tail: string, cur: string, inWord: bool)
    ensures WordsFrom(['\\', '\''] + tail, cur, inWord) == WordsFrom(tail, cur + ['\''], true)
  {
    assert (['\\', '\''] + tail)[2..] == tail;
  }

  lemma Regroup<T>(q: seq<T>, a: seq<T>, m: seq<T>, b: seq<T>, rest: seq<T>)
    ensures q + (a + (q + m + q) + b) + q + rest == q + (a + q + (m + ((q + b + q) + rest)))
  {}

  /** A quoted argument is read up to its first quote, then as the rest quoted. */
  lemma QuoteStep(a: string, esc: string, rest: string, cur: string, inWord: bool)
    requires '\'' !in a
    ensures WordsFrom(['\''] + (a + ['\'', '\\', '\'', '\''] + esc) + ['\''] + rest, cur, inWord) ==
      WordsFrom((['\''] + esc + ['\'']) + rest, cur + a + ['\''], true)
  {
    var q, m := ['\''], ['\\', '\''];
    assert q + m + q == ['\'', '\\', '\'', '\''];
    Regroup(q, a, m, esc, rest);
    var tail := (q + esc + q) + rest;
    SingleQuoted(a, m + tail, cur, inWord);
    EscapedQuote(tail, cur + a, true);
  }

  lemma PlainStep(arg: string, rest: string, cur: string, inWord: bool)
    requires '\'' !in arg
    ensures WordsFrom((['\''] + arg + ['\'']) + rest, cur, inWord) == WordsFrom(rest, cur + arg, true)
  {
    assert (['\''] + arg + ['\'']) + rest == ['\''] + (arg + ['\''] + rest);
    SingleQuoted(arg, rest, cur, inWord);
  }

  lemma {:induction false} QuoteReads(arg: string, rest: string, cur: string, inWord: bool)
    ensures WordsFrom(Quote(arg) + rest, cur, inWord) == WordsFrom(rest, cur + arg, true)
    decreases |arg|
  {
    var (a, b, found) := Cut(arg, '\'');
    EscapeCut(arg);
    if !found {
      PlainStep(arg, rest, cur, inWord);
    } else {
      QuoteStep(a, Escape(b), rest, cur, inWord);
      QuoteReads(b, rest, cur + a + ['\''], true);
      assert cur + a + ['\''] + b == cur + arg;
    }
  }

  lemma WrittenReads(text: string, arg: string, rest: string, inWord: bool)
    requires Written(text, arg)
    ensures WordsFrom(text + rest, "", inWord) == WordsFrom(rest, arg, true)
  {
    assert "" + arg == arg;
    if text == Quote(arg) { QuoteReads(arg, rest, "", inWord); } else { BareReads(arg, rest, "", inWord); }
  }

  ghost predicate AllWritten(texts: seq<string>, args: seq<string>) {
    |texts| == |args| && forall i | 0 <= i < |args| :: Written(texts[i], args[i])
  }

  lemma BothWritten(texts: seq<string>, args: seq<string>, texts': seq<string>, args': seq<string>)
    requires AllWritten(texts, args) && AllWritten(texts', args')
    ensures AllWritten(texts + texts', args + args')
  {
  }

  /** Arguments written either way and joined by spaces come back as they were. */
  lemma {:induction false} LineReads(texts: seq<string>, args: seq<string>)
    requires AllWritten(texts, args)
    ensures WordsFrom(Join(texts, " "), "", false) == Ok(args)
  {
    if |texts| == 1 {
      assert texts[0] + "" == texts[0];
      WrittenReads(texts[0], args[0], "", false);
      assert args == [args[0]];
    } else if |texts| > 1 {
      var rest := " " + Join(texts[1..], " ");
      assert texts[0] + " " + Join(texts[1..], " ") == texts[0] + rest;
      WrittenReads(texts[0], args[0], rest, false);
      assert rest[1..] == Join(texts[1..], " ");
      LineReads(texts[1..], args[1..]);
      assert [args[0]] + args[1..] == args;
    }
  }

  /** runSSHPaged's command line: the server gets exactly the client's argv. */
  lemma CommandLineRoundTrip(args: seq<string>, quoted: seq<string>)
    requires |quoted| == |args| && forall i | 0 <= i < |args| :: quoted[i] == ShellQuote(args[i])
    ensures WordsFrom(Join(quoted, " "), "", false) == Ok(args)
    ensures PosixFrom(Join(quoted, " "), Between, "") == Some(args)
  {
    LineReads(quoted, args);
    PosixLineReads(quoted, args);
  }

  method CommandLine(args: seq<string>) returns (line: string)
    ensures WordsFrom(line, "", false) == Ok(args) && PosixFrom(line, Between, "") == Some(args)
  {
    var quoted: seq<string> := [];
    for i := 0 to |args|
      invariant |quoted| == i && forall j | 0 <= j < i :: quoted[j] == ShellQuote(args[j])
    {
      quoted := quoted + [ShellQuote(args[i])];
    }
    CommandLineRoundTrip(args, quoted);
    line := Join(quoted, " ");
  }

  // -------------------------------------------------------- a POSIX shell

  datatype Mode = Between | InWord | InSingle | InDouble

  /** The words of one simple command by sections 2.2.1 to 2.2.3 and 2.3 of
      the Shell Command Language in IEEE Std 1003.1-2017: `cur` has been read
      of the current word. None for an operator, a second line, an expansion
      or an open quote. Nothing is expanded. */
  function PosixFrom(s: string, mode: Mode, cur: string): Option<seq<string>>
    decreases |s|
  {
    if s == "" then
      match mode
      case Between => Some([])
      case InWord => Some([cur])
      case _ => None
    else
      var c, rest := s[0], s[1..];
      match mode
      case InSingle => if c == '\'' then PosixFrom(rest, InWord, cur) else PosixFrom(rest, InSingle, cur + [c])
      case InDouble =>
        if c == '"' then PosixFrom(rest, InWord, cur)
        else if c == '$' || c == '`' then None
        else if c == '\\' && rest != "" && rest[0] in {'$', '`', '"', '\\'} then
          PosixFrom(rest[1..], InDouble, cur + [rest[0]])
        else if c == '\\' && rest != "" && rest[0] == '\n' then PosixFrom(rest[1..], InDouble, cur)
        else PosixFrom(rest, InDouble, cur + [c])
      case _ =>
        if c == ' ' || c == '\t' then
          EndWord(mode, cur, PosixFrom(rest, Between, ""))
        else if c in {'\n', '|', '&', ';', '<', '>', '(', ')', '$', '`'} then None
        else if c == '\'' then PosixFrom(rest, InSingle, cur)
        else if c == '"' then PosixFrom(rest, InDouble, cur)
        else if c == '\\' then
          if rest == "" then None
          else if rest[0] == '\n' then PosixFrom(rest[1..], mode, cur)
          else PosixFrom(rest[1..], InWord, cur + [rest[0]])
        else if c == '#' && mode == Between then (if '\n' in rest then None else Some([]))
        else PosixFrom(rest, InWord, cur + [c])
  }

  function EndWord(mode: Mode, cur: string, more: Option<seq<string>>): Option<seq<string>> {
    if mode == Between || more.None? then more else Some([cur] + more.value)
  }

  lemma {:induction false} PosixBare(w: string, rest: string, mode: Mode, cur: string)
    requires w != "" && (forall c <- w :: BareChar(c)) && (mode == Between || mode == InWord)
    ensures PosixFrom(w + rest, mode, cur) == PosixFrom(rest, InWord, cur + w)
  {
    var s := w + rest;
    assert s[1..] == w[1..] + rest && s[0] == w[0] && BareChar(s[0]);
    assert PosixFrom(s, mode, cur) == PosixFrom(s[1..], InWord, cur + [w[0]]);
    if |w| == 1 {
      assert s[1..] == rest && cur + [w[0]] == cur + w;
    } else {
      assert cur + [w[0]] + w[1..] == cur + w;
      PosixBare(w[1..], rest, InWord, cur + [w[0]]);
    }
  }

  lemma Assoc<T>(a: seq<T>, b: seq<T>, c: seq<T>)
    ensures (a + b) + c == a + (b + c)
  {}

  lemma PastQuote<T>(q: seq<T>, text: seq<T>, rest: seq<T>)
    requires |q| == 1
    ensures (q + text + q + rest)[0] == q[0] && (q + text + q + rest)[1..] == text + (q + rest)
  {}

  /** The four characters written for a quote close the quotes, give it, and open
      them again. */
  lemma PosixEscape(tail: string, cur: string)
    ensures PosixFrom(['\'', '\\', '\'', '\''] + tail, InSingle, cur) == PosixFrom(tail, InSingle, cur + ['\''])
  {
    var s := ['\'', '\\', '\'', '\''] + tail;
    var s1 := ['\\', '\'', '\''] + tail;
    var s3 := ['\''] + tail;
    assert s[1..] == s1 && s1[1..][1..] == s3 && s3[1..] == tail;
    assert PosixFrom(s, InSingle, cur) == PosixFrom(s1, InWord, cur);
    assert PosixFrom(s1, InWord, cur) == PosixFrom(s3, InWord, cur + ['\'']);
  }

  lemma {:induction false} PosixSingle(arg: string, rest: string, cur: string)
    ensures PosixFrom(Escape(arg) + (['\''] + rest), InSingle, cur) == PosixFrom(rest, InWord, cur + arg)
  {
    if arg == "" {
      assert Escape(arg) + (['\''] + rest) == ['\''] + rest && (['\''] + rest)[1..] == rest && cur + arg == cur;
    } else {
      var tail := Escape(arg[1..]) + (['\''] + rest);
      assert cur + [arg[0]] + arg[1..] == cur + arg;
      PosixSingle(arg[1..], rest, cur + [arg[0]]);
      if arg[0] == '\'' {
        Assoc(['\'', '\\', '\'', '\''], Escape(arg[1..]), ['\''] + rest);
        PosixEscape(tail, cur);
      } else {
        Assoc([arg[0]], Escape(arg[1..]), ['\''] + rest);
        assert ([arg[0]] + tail)[1..] == tail;
      }
    }
  }

  lemma PosixReads(text: string, arg: string, rest: string, mode: Mode)
    requires Written(text, arg) && (mode == Between || mode == InWord)
    ensures PosixFrom(text + rest, mode, "") == PosixFrom(rest, InWord, arg)
  {
    assert "" + arg == arg;
    if text == Quote(arg) {
      PastQuote(['\''], Escape(arg), rest);
      PosixSingle(arg, rest, "");
    } else {
      PosixBare(arg, rest, mode, "");
    }
  }

  /** A printed command can be pasted: a POSIX shell reads the same words. */
  lemma {:induction false} PosixLineReads(texts: seq<string>, args: seq<string>)
    requires AllWritten(texts, args)
    ensures PosixFrom(Join(texts, " "), Between, "") == Some(args)
  {
    if |texts| == 1 {
      assert texts[0] + "" == texts[0];
      PosixReads(texts[0], args[0], "", Between);
      assert args == [args[0]];
    } else if |texts| > 1 {
      var rest := " " + Join(texts[1..], " ");
      assert texts[0] + " " + Join(texts[1..], " ") == texts[0] + rest;
      PosixReads(texts[0], args[0], rest, Between);
      assert rest[1..] == Join(texts[1..], " ");
      PosixLineReads(texts[1..], args[1..]);
      assert [args[0]] + args[1..] == args;
    }
  }

  // ---------------------------------------------------- where the two readers part

  /** Tokenize's reading, a character at a time. */
  function ServerFrom(s: string, mode: Mode, cur: string): Option<seq<string>>
    decreases |s|
  {
    if s == "" then
      match mode
      case Between => Some([])
      case InWord => Some([cur])
      case _ => None
    else
      var c, rest := s[0], s[1..];
      match mode
      case InSingle => if c == '\'' then ServerFrom(rest, InWord, cur) else ServerFrom(rest, InSingle, cur + [c])
      case InDouble =>
        if c == '"' then ServerFrom(rest, InWord, cur)
        else if c == '\\' && rest != "" && rest[0] in {'$', '`', '"', '\\'} then
          ServerFrom(rest[1..], InDouble, cur + [rest[0]])
        else ServerFrom(rest, InDouble, cur + [c])
      case _ =>
        if Blank(c) then EndWord(mode, cur, ServerFrom(rest, Between, ""))
        else if c == '\'' then ServerFrom(rest, InSingle, cur)
        else if c == '"' then ServerFrom(rest, InDouble, cur)
        else if c == '\\' then (if rest == "" then None else ServerFrom(rest[1..], InWord, cur + [rest[0]]))
        else if Meta(c) then None
        else ServerFrom(rest, InWord, cur + [c])
  }

  lemma {:induction false} ServerSingle(s: string, cur: string)
    ensures var (text, rest, closed) := Cut(s, '\'');
      ServerFrom(s, InSingle, cur) == if closed then ServerFrom(rest, InWord, cur + text) else None
  {
    if s != "" {
      if s[0] == '\'' {
        assert cur + "" == cur;
      } else {
        ServerSingle(s[1..], cur + [s[0]]);
        var text := Cut(s[1..], '\'').0;
        assert cur + [s[0]] + text == cur + ([s[0]] + text);
      }
    }
  }

  lemma {:induction false} ServerDouble(s: string, cur: string)
    ensures ServerFrom(s, InDouble, cur) ==
      if DoubleQuoted(s).Some? then ServerFrom(DoubleQuoted(s).value.1, InWord, cur + DoubleQuoted(s).value.0) else None
    decreases |s|
  {
    if s != "" && s[0] == '"' {
      assert cur + "" == cur;
    } else if s != "" {
      var escaped := s[0] == '\\' && |s| > 1 && s[1] in {'\\', '"', '$', '`'};
      var (c, rest) := if escaped then (s[1], s[2..]) else (s[0], s[1..]);
      assert s[1..] != "" ==> s[1..][1..] == s[2..];
      ServerDouble(rest, cur + [c]);
      if DoubleQuoted(rest).Some? {
        var text := DoubleQuoted(rest).value.0;
        assert cur + [c] + text == cur + ([c] + text);
      }
    }
  }

  function AsOption(w: Words): Option<seq<string>> {
    if w.Ok? then Some(w.argv) else None
  }

  lemma {:induction false} ServerReads(s: string, cur: string, inWord: bool)
    requires inWord || cur == ""
    ensures AsOption(WordsFrom(s, cur, inWord)) == ServerFrom(s, if inWord then InWord else Between, cur)
    decreases |s|
  {
    if s != "" {
      var rest := s[1..];
      if Blank(s[0]) {
        ServerReads(rest, "", false);
      } else if s[0] == '\'' {
        ServerSingle(rest, cur);
        CutShorter(rest, '\'');
        var (text, tail, closed) := Cut(rest, '\'');
        if closed { ServerReads(tail, cur + text, true); }
      } else if s[0] == '"' {
        ServerDouble(rest, cur);
        var r := DoubleQuoted(rest);
        if r.Some? { ServerReads(r.value.1, cur + r.value.0, true); }
      } else if s[0] == '\\' {
        if |s| > 1 {
          assert rest[1..] == s[2..] && rest[0] == s[1];
          ServerReads(s[2..], cur + [s[1]], true);
        }
      } else if !Meta(s[0]) {
        ServerReads(rest, cur + [s[0]], true);
      }
    }
  }

  /** How many line continuations a line has: backslash, newline, not in single
      quotes. */
  function Joins(s: string, mode: Mode): nat
    decreases |s|
  {
    if s == "" then 0
    else
      var c, rest := s[0], s[1..];
      match mode
      case InSingle => Joins(rest, if c == '\'' then InWord else InSingle)
      case InDouble =>
        if c == '"' then Joins(rest, InWord)
        else if c == '\\' && rest != "" && rest[0] in {'$', '`', '"', '\\'} then Joins(rest[1..], InDouble)
        else if c == '\\' && rest != "" && rest[0] == '\n' then 1 + Joins(rest[1..], InDouble)
        else Joins(rest, InDouble)
      case _ =>
        if c == '\'' then Joins(rest, InSingle)
        else if c == '"' then Joins(rest, InDouble)
        else if c == '\\' && rest != "" then (if rest[0] == '\n' then 1 else 0) + Joins(rest[1..], InWord)
        else Joins(rest, InWord)
  }

  function Newlines(s: string): nat {
    if s == "" then 0 else (if s[0] == '\n' then 1 else 0) + Newlines(s[1..])
  }

  lemma {:induction false} NewlinesMore(s: string, c: char)
    ensures Newlines(s + [c]) == Newlines(s) + if c == '\n' then 1 else 0
  {
    if s != "" {
      assert (s + [c])[1..] == s[1..] + [c];
      NewlinesMore(s[1..], c);
    }
  }

  function AllNewlines(words: seq<string>): nat {
    if words == [] then 0 else Newlines(words[0]) + AllNewlines(words[1..])
  }

  lemma EndWordNewlines(mode: Mode, cur: string, more: Option<seq<string>>)
    requires more.Some? && (mode == InWord || (mode == Between && cur == ""))
    ensures AllNewlines(EndWord(mode, cur, more).value) == Newlines(cur) + AllNewlines(more.value)
  {
    if mode == InWord { assert ([cur] + more.value)[1..] == more.value; }
  }

  lemma OneWordNewlines(cur: string)
    ensures AllNewlines([cur]) == Newlines(cur)
  {
    assert [cur][1..] == [];
  }

  lemma JoinsInWord(s: string)
    ensures Joins(s, Between) == Joins(s, InWord)
  {}

  /** The server keeps the newline of each continuation, POSIX none. `theirs` may
      still be between words where the server is in one. */
  ghost predicate Counted(s: string, mode: Mode, cur: string, theirs: Mode, their: string)
    requires ServerFrom(s, mode, cur).Some? && PosixFrom(s, theirs, their).Some?
  {
    AllNewlines(ServerFrom(s, mode, cur).value) + Newlines(their) ==
      AllNewlines(PosixFrom(s, theirs, their).value) + Newlines(cur) + Joins(s, mode)
  }

  lemma {:induction false} JoinsCounted(s: string, mode: Mode, cur: string, theirs: Mode, their: string)
    requires ServerFrom(s, mode, cur).Some? && PosixFrom(s, theirs, their).Some?
    requires theirs == mode || (theirs == Between && mode == InWord)
    requires (mode == Between ==> cur == "") && (theirs == Between ==> their == "")
    ensures Counted(s, mode, cur, theirs, their)
    decreases |s|, 2
  {
    if s == "" {
      OneWordNewlines(cur);
      OneWordNewlines(their);
    } else if mode == InSingle {
      CountedInSingle(s, mode, cur, theirs, their);
    } else if mode == InDouble {
      CountedInDouble(s, mode, cur, theirs, their);
    } else {
      CountedOutside(s, mode, cur, theirs, their);
    }
  }

  lemma {:induction false} CountedInSingle(s: string, mode: Mode, cur: string, theirs: Mode, their: string)
    requires s != "" && ServerFrom(s, mode, cur).Some? && PosixFrom(s, theirs, their).Some?
    requires mode == theirs == InSingle
    ensures Counted(s, mode, cur, theirs, their)
    decreases |s|, 0
  {
    var c, rest := s[0], s[1..];
    NewlinesMore(cur, c);
    NewlinesMore(their, c);
    if rest != "" {
      NewlinesMore(cur, rest[0]);
      NewlinesMore(their, rest[0]);
    }
    if c == '\'' { JoinsCounted(rest, InWord, cur, InWord, their); }
    else { JoinsCounted(rest, InSingle, cur + [c], InSingle, their + [c]); }
  }

  lemma {:induction false} CountedInDouble(s: string, mode: Mode, cur: string, theirs: Mode, their: string)
    requires s != "" && ServerFrom(s, mode, cur).Some? && PosixFrom(s, theirs, their).Some?
    requires mode == theirs == InDouble
    ensures Counted(s, mode, cur, theirs, their)
    decreases |s|, 0
  {
    var c, rest := s[0], s[1..];
    NewlinesMore(cur, c);
    NewlinesMore(their, c);
    if rest != "" {
      NewlinesMore(cur, rest[0]);
      NewlinesMore(their, rest[0]);
    }
    if c == '"' { JoinsCounted(rest, InWord, cur, InWord, their); }
    else if c == '\\' && rest != "" && rest[0] in {'$', '`', '"', '\\'} {
      JoinsCounted(rest[1..], InDouble, cur + [rest[0]], InDouble, their + [rest[0]]);
    } else if c == '\\' && rest != "" && rest[0] == '\n' {
      NewlinesMore(cur + [c], rest[0]);
      JoinsCounted(rest[1..], InDouble, cur + [c] + [rest[0]], InDouble, their);
    } else { JoinsCounted(rest, InDouble, cur + [c], InDouble, their + [c]); }
  }

  lemma {:induction false} CountedBlank(s: string, mode: Mode, cur: string, theirs: Mode, their: string)
    requires s != "" && s[0] in {' ', '\t'} && ServerFrom(s, mode, cur).Some? && PosixFrom(s, theirs, their).Some?
    requires mode in {Between, InWord} && theirs in {Between, InWord}
    requires (mode == Between ==> cur == "") && (theirs == Between ==> their == "")
    ensures Counted(s, mode, cur, theirs, their)
    decreases |s|, 0
  {
    var rest := s[1..];
    JoinsCounted(rest, Between, "", Between, "");
    EndWordNewlines(mode, cur, ServerFrom(rest, Between, ""));
    EndWordNewlines(theirs, their, PosixFrom(rest, Between, ""));
    JoinsInWord(rest);
  }

  lemma {:induction false} CountedOutside(s: string, mode: Mode, cur: string, theirs: Mode, their: string)
    requires s != "" && ServerFrom(s, mode, cur).Some? && PosixFrom(s, theirs, their).Some?
    requires mode in {Between, InWord} && (theirs == mode || theirs == Between)
    requires (mode == Between ==> cur == "") && (theirs == Between ==> their == "")
    ensures Counted(s, mode, cur, theirs, their)
    decreases |s|, 1
  {
    var c, rest := s[0], s[1..];
    NewlinesMore(cur, c);
    NewlinesMore(their, c);
    if rest != "" {
      NewlinesMore(cur, rest[0]);
      NewlinesMore(their, rest[0]);
    }
    if c == ' ' || c == '\t' { CountedBlank(s, mode, cur, theirs, their); }
    else if c == '\'' { JoinsCounted(rest, InSingle, cur, InSingle, their); }
    else if c == '"' { JoinsCounted(rest, InDouble, cur, InDouble, their); }
    else if c == '\\' && rest[0] == '\n' { JoinsCounted(rest[1..], InWord, cur + [rest[0]], theirs, their); }
    else if c == '\\' { JoinsCounted(rest[1..], InWord, cur + [rest[0]], InWord, their + [rest[0]]); }
    else { JoinsCounted(rest, InWord, cur + [c], InWord, their + [c]); }
  }

  lemma {:induction false} AgreeUnjoined(s: string, mode: Mode, cur: string)
    requires ServerFrom(s, mode, cur).Some? && PosixFrom(s, mode, cur).Some? && Joins(s, mode) == 0
    ensures ServerFrom(s, mode, cur) == PosixFrom(s, mode, cur)
    decreases |s|
  {
    if s != "" {
      var c, rest := s[0], s[1..];
      match mode
      case InSingle =>
        if c == '\'' { AgreeUnjoined(rest, InWord, cur); } else { AgreeUnjoined(rest, InSingle, cur + [c]); }
      case InDouble =>
        if c == '"' { AgreeUnjoined(rest, InWord, cur); }
        else if c == '\\' && rest != "" && rest[0] in {'$', '`', '"', '\\'} {
          AgreeUnjoined(rest[1..], InDouble, cur + [rest[0]]);
        } else { AgreeUnjoined(rest, InDouble, cur + [c]); }
      case _ =>
        JoinsInWord(rest);
        if c == ' ' || c == '\t' { AgreeUnjoined(rest, Between, ""); }
        else if c == '\'' { AgreeUnjoined(rest, InSingle, cur); }
        else if c == '"' { AgreeUnjoined(rest, InDouble, cur); }
        else if c == '\\' { AgreeUnjoined(rest[1..], InWord, cur + [rest[0]]); }
        else { AgreeUnjoined(rest, InWord, cur + [c]); }
    }
  }

  /** Of the lines both read, the server and a POSIX shell get the same words from
      exactly those without a line continuation. */
  lemma ReadersAgree(line: string, argv: seq<string>, words: seq<string>)
    requires WordsFrom(line, "", false) == Ok(argv) && PosixFrom(line, Between, "") == Some(words)
    ensures argv == words <==> Joins(line, Between) == 0
  {
    ServerReads(line, "", false);
    JoinsCounted(line, Between, "", Between, "");
    if Joins(line, Between) == 0 { AgreeUnjoined(line, Between, ""); }
  }

  // ---------------------------------------------------------------- what is refused

  /** Where Tokenize can go no further outside quotes: a shell metacharacter, a
      backslash with nothing after it, or a quote that is not closed. */
  predicate Stuck(s: string) {
    s != "" && (s[0] in "$`;&|<>()*?[#~" || s == "\\" || (s[0] == '\'' && '\'' !in s[1..])
                || (s[0] == '"' && DoubleQuoted(s[1..]).None?))
  }

  lemma StuckFails(s: string, mode: Mode, cur: string)
    requires Stuck(s) && (mode == Between || mode == InWord)
    ensures ServerFrom(s, mode, cur) == None
  {
    if s[0] == '\'' {
      ServerSingle(s[1..], cur);
      CutAbsent(s[1..], '\'');
    } else if s[0] == '"' {
      ServerDouble(s[1..], cur);
    }
  }

  /** Whatever is read up to there. */
  lemma {:induction false} FailsAfter(head: string, tail: string, mode: Mode, cur: string)
    requires ServerFrom(head, mode, cur).Some? && Stuck(tail)
    ensures ServerFrom(head + tail, mode, cur) == None
    decreases |head|
  {
    var s := head + tail;
    if head == "" {
      assert s == tail;
      StuckFails(tail, mode, cur);
    } else {
      var c, rest := head[0], head[1..];
      assert s[0] == c && s[1..] == rest + tail;
      if rest != "" { assert s[1..][0] == rest[0] && s[1..][1..] == rest[1..] + tail; }
      match mode
      case InSingle =>
        if c == '\'' { FailsAfter(rest, tail, InWord, cur); } else { FailsAfter(rest, tail, InSingle, cur + [c]); }
      case InDouble =>
        if c == '"' { FailsAfter(rest, tail, InWord, cur); }
        else if c == '\\' && rest[0] in {'$', '`', '"', '\\'} { FailsAfter(rest[1..], tail, InDouble, cur + [rest[0]]); }
        else { FailsAfter(rest, tail, InDouble, cur + [c]); }
      case _ =>
        if Blank(c) { FailsAfter(rest, tail, Between, ""); }
        else if c == '\'' { FailsAfter(rest, tail, InSingle, cur); }
        else if c == '"' { FailsAfter(rest, tail, InDouble, cur); }
        else if c == '\\' { FailsAfter(rest[1..], tail, InWord, cur + [rest[0]]); }
        else { FailsAfter(rest, tail, InWord, cur + [c]); }
    }
  }

  lemma {:induction false} DoubleQuotedPrefix(s: string, k: nat)
    requires DoubleQuoted(s).Some? && |s| - |DoubleQuoted(s).value.1| <= k <= |s|
    ensures DoubleQuoted(s[..k]) == Some((DoubleQuoted(s).value.0, s[|s| - |DoubleQuoted(s).value.1|..k]))
  {
    if s[0] == '"' {
      assert s[..k][1..] == s[1..k];
    } else {
      var escaped := s[0] == '\\' && |s| > 1 && s[1] in {'\\', '"', '$', '`'};
      var step := if escaped then 2 else 1;
      DoubleQuotedPrefix(s[step..], k - step);
      assert s[..k][step..] == s[step..][..k-step];
      var tail := DoubleQuoted(s).value.1;
      assert s[step..][|s| - step - |tail|..k-step] == s[|s|-|tail|..k];
      if |s| > 1 && s[0] == '\\' && !escaped { assert k > 1; }
    }
  }

  lemma SinglePrefix(s: string, k: nat, cur: string, inWord: bool)
    requires s != "" && s[0] == '\'' && '\'' in s[1..] && k <= |Cut(s[1..], '\'').1|
    ensures var (text, tail, _) := Cut(s[1..], '\'');
      var n := |s| - |tail|;
      && WordsFrom(s[..n+k], cur, inWord) == WordsFrom(tail[..k], cur + text, true)
      && s[n+k..] == tail[k..] && n > 0
  {
    var (text, tail, closed) := Cut(s[1..], '\'');
    var n := |s| - |tail|;
    assert s[1..] == text + ['\''] + tail && s[n..] == tail;
    assert s[..n+k][1..] == text + ['\''] + tail[..k];
    CutAt(text, tail[..k], '\'');
  }

  lemma DoublePrefix(s: string, k: nat, cur: string, inWord: bool)
    requires s != "" && s[0] == '"' && DoubleQuoted(s[1..]).Some? && k <= |DoubleQuoted(s[1..]).value.1|
    ensures var (text, tail) := DoubleQuoted(s[1..]).value;
      var n := |s| - |tail|;
      && WordsFrom(s[..n+k], cur, inWord) == WordsFrom(tail[..k], cur + text, true)
      && s[n+k..] == tail[k..] && n > 0
  {
    var (text, tail) := DoubleQuoted(s[1..]).value;
    var n := |s| - |tail|;
    DoubleQuotedSuffix(s[1..]);
    assert s[n..] == tail;
    DoubleQuotedPrefix(s[1..], n - 1 + k);
    assert s[..n+k][1..] == s[1..][..n-1+k];
    assert s[1..][n-1..n-1+k] == tail[..k];
  }

  lemma PlainPrefix(s: string, n: nat, k: nat)
    requires 0 < n && n + k <= |s|
    ensures s[..n+k][0] == s[0] && s[..n+k][n..] == s[n..][..k] && s[n+k..] == s[n..][k..]
    ensures n == 2 ==> s[..n+k][1] == s[1]
  {}

  /** Where a refused line gets stuck: what is before it reads well. */
  lemma {:induction false} FindStuck(s: string, cur: string, inWord: bool) returns (k: nat)
    requires WordsFrom(s, cur, inWord) == Bad
    ensures k < |s| && WordsFrom(s[..k], cur, inWord).Ok? && Stuck(s[k..])
    decreases |s|
  {
    k := 0;
    if Stuck(s) {
      assert s[0..] == s && s[..0] == "";
    } else if s[0] == '\'' {
      CutAbsentNot(s[1..], '\'');
      var (text, tail, _) := Cut(s[1..], '\'');
      var rest := FindStuck(tail, cur + text, true);
      SinglePrefix(s, rest, cur, inWord);
      k := |s| - |tail| + rest;
    } else if s[0] == '"' {
      var (text, tail) := DoubleQuoted(s[1..]).value;
      var rest := FindStuck(tail, cur + text, true);
      DoublePrefix(s, rest, cur, inWord);
      k := |s| - |tail| + rest;
    } else if s[0] == '\\' {
      OneChar(s);
      var rest := FindStuck(s[2..], cur + [s[1]], true);
      PlainPrefix(s, 2, rest);
      k := 2 + rest;
    } else {
      k := FindStuckPlain(s, cur, inWord);
    }
  }

  lemma OneChar(s: string)
    requires s != "" && s[0] == '\\' && s != "\\"
    ensures |s| > 1
  {
    Alone(s);
  }

  lemma Alone(s: string)
    requires s != ""
    ensures |s| == 1 ==> s == [s[0]]
  {}

  lemma CutAbsentNot(s: string, sep: char)
    requires sep in s
    ensures Cut(s, sep).2 && |Cut(s, sep).1| < |s|
  {}

  lemma {:induction false} FindStuckPlain(s: string, cur: string, inWord: bool) returns (k: nat)
    requires WordsFrom(s, cur, inWord) == Bad && !Stuck(s) && s[0] !in {'\'', '"', '\\'}
    ensures k < |s| && WordsFrom(s[..k], cur, inWord).Ok? && Stuck(s[k..])
    decreases |s|, 0
  {
    var rest;
    if Blank(s[0]) {
      rest := FindStuck(s[1..], "", false);
    } else {
      rest := FindStuck(s[1..], cur + [s[0]], true);
    }
    PlainPrefix(s, 1, rest);
    k := 1 + rest;
  }

  /** A line is refused exactly when somewhere, outside quotes, it gets stuck. */
  lemma RefusedExactly(line: string)
    ensures WordsFrom(line, "", false) == Bad <==>
      exists k :: 0 <= k < |line| && WordsFrom(line[..k], "", false).Ok? && Stuck(line[k..])
  {
    if WordsFrom(line, "", false) == Bad {
      var k := FindStuck(line, "", false);
    }
    forall k | 0 <= k < |line| && WordsFrom(line[..k], "", false).Ok? && Stuck(line[k..])
      ensures WordsFrom(line, "", false) == Bad
    {
      StuckRefuses(line, k);
    }
  }

  lemma StuckRefuses(line: string, k: nat)
    requires k < |line| && WordsFrom(line[..k], "", false).Ok? && Stuck(line[k..])
    ensures WordsFrom(line, "", false) == Bad
  {
    assert line[..k] + line[k..] == line;
    ServerReads(line[..k], "", false);
    FailsAfter(line[..k], line[k..], Between, "");
    ServerReads(line, "", false);
  }

  /** A line continuation inside a word. */
  const CONTINUED := ['a', '\\', '\n', 'b']

  lemma ContinuedDiffers()
    ensures WordsFrom(CONTINUED, "", false) == Ok([['a', '\n', 'b']])
    ensures PosixFrom(CONTINUED, Between, "") == Some([['a', 'b']])
  {
    assert CONTINUED[1..] == ['\\', '\n', 'b'] && CONTINUED[1..][1..] == ['\n', 'b'];
    assert CONTINUED[1..][2..] == ['b'] && CONTINUED[1..][1..][1..] == ['b'] && ['b'][1..] == "";
    assert "" + ['a'] + ['\n'] + ['b'] == ['a', '\n', 'b'] && "" + ['a'] + ['b'] == ['a', 'b'];
    assert WordsFrom(['b'], "" + ['a'] + ['\n'], true) == Ok(["" + ['a'] + ['\n'] + ['b']]);
    assert PosixFrom(['b'], InWord, "" + ['a']) == Some(["" + ['a'] + ['b']]);
  }

  // -------------------------------------------------------------- runner reports

  /** A build's failure: the step it stopped in, 0 for none, and why. */
  datatype Failure = Failure(step: nat, reason: string)

  /** What runner done is to be told. */
  function DoneCommand(id: nat, status: string, f: Option<Failure>): seq<string> {
    ["runner", "done", Itoa(id), status] + StepWords(f) + ReasonWords(f)
  }

  function StepWords(f: Option<Failure>): seq<string> {
    if f.Some? && f.value.step > 0 then ["--step", Itoa(f.value.step)] else []
  }

  function ReasonWords(f: Option<Failure>): seq<string> {
    if f.Some? && f.value.reason != "" then ["--reason", f.value.reason] else []
  }

  lemma FixedWords(id: nat, status: string, n: nat)
    requires BareWord(status)
    ensures AllWritten(["runner", "done", Itoa(id), status], ["runner", "done", Itoa(id), status])
    ensures AllWritten(["--step", Itoa(n)], ["--step", Itoa(n)])
    ensures BareWord("--reason")
  {
    assert BareWord("runner") && BareWord("done") && BareWord("--step") && BareWord("--reason");
    assert BareWord(Itoa(id)) && BareWord(Itoa(n));
  }

  /** doneArgs, which ssh joins with spaces and the server splits again. */
  method DoneArgs(id: nat, status: string, f: Option<Failure>) returns (args: seq<string>)
    requires BareWord(status)
    ensures WordsFrom(Join(args, " "), "", false) == Ok(DoneCommand(id, status, f))
    ensures PosixFrom(Join(args, " "), Between, "") == Some(DoneCommand(id, status, f))
  {
    args := ["runner", "done", Itoa(id), status];
    ghost var want := args;
    FixedWords(id, status, if f.Some? then f.value.step else 0);
    if f.Some? && f.value.step > 0 {
      var more := ["--step", Itoa(f.value.step)];
      BothWritten(args, want, more, StepWords(f));
      args := args + more;
    }
    want := want + StepWords(f);
    if f.Some? && f.value.reason != "" {
      var more := ["--reason", Quote(f.value.reason)];
      BothWritten(args, want, more, ReasonWords(f));
      args := args + more;
    }
    want := want + ReasonWords(f);
    LineReads(args, want);
    PosixLineReads(args, want);
  }
}
