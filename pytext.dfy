/** The pieces of Python's `str` behaviour that the modelled code relies on:
    `s.split(c)`, `s.split(c, 1)[0]`, `str(n)` for integers and
    `template.format(**fields)`. They are defined concretely here,
    each with an independent partner (an inverse or a characterisation). */
module PyText {
  import opened Wrappers

  // ---------------------------------------------------------------------------
  // s.split(sep) and sep.join(parts)
  // ---------------------------------------------------------------------------

  /** Python's `s.split(sep)` for a one-character separator: the pieces
      between separators, including empty ones; `"".split(sep) == [""]`. */
  function Split(s: string, sep: char): (parts: seq<string>)
    ensures |parts| >= 1
    ensures forall i :: 0 <= i < |parts| ==> sep !in parts[i]
    decreases |s|
  {
    if s == [] then [""]
    else
      var rest := Split(s[1..], sep);
      if s[0] == sep then [""] + rest
      else [[s[0]] + rest[0]] + rest[1..]
  }

  /** Python's `sep.join(parts)`. */
  function Join(parts: seq<string>, sep: char): string
    decreases |parts|
  {
    if parts == [] then ""
    else if |parts| == 1 then parts[0]
    else parts[0] + [sep] + Join(parts[1..], sep)
  }

  /** Joining the pieces of a split gives back the original text. */
  lemma {:induction false} JoinSplit(s: string, sep: char)
    ensures Join(Split(s, sep), sep) == s
    decreases |s|
  {
    if s != [] {
      var rest := Split(s[1..], sep);
      JoinSplit(s[1..], sep);
      if s[0] != sep {
        var parts := Split(s, sep);
        assert parts == [[s[0]] + rest[0]] + rest[1..];
        if |rest| == 1 {
          assert Join(parts, sep) == [s[0]] + rest[0];
        } else {
          assert parts[1..] == rest[1..];
          assert Join(rest, sep) == rest[0] + [sep] + Join(rest[1..], sep);
          assert Join(parts, sep) == [s[0]] + rest[0] + [sep] + Join(rest[1..], sep);
        }
      } else {
        assert Split(s, sep) == [""] + rest;
        assert (s[..1] + s[1..]) == s;
      }
    }
  }

  /** A text without the separator is a single piece. */
  lemma {:induction false} SplitWithoutSeparator(p: string, sep: char)
    requires sep !in p
    ensures Split(p, sep) == [p]
    decreases |p|
  {
    if p != [] {
      SplitWithoutSeparator(p[1..], sep);
      assert [p[0]] + p[1..] == p;
    }
  }

  /** A separator-free head followed by a separator starts a new piece. */
  lemma {:induction false} SplitAfterSeparator(p: string, sep: char, t: string)
    requires sep !in p
    ensures Split(p + [sep] + t, sep) == [p] + Split(t, sep)
    decreases |p|
  {
    if p == [] {
      assert p + [sep] + t == [sep] + t;
      assert ([sep] + t)[1..] == t;
    } else {
      var s := p + [sep] + t;
      assert s[1..] == p[1..] + [sep] + t;
      SplitAfterSeparator(p[1..], sep, t);
      assert [p[0]] + p[1..] == p;
    }
  }

  /** Splitting a join of separator-free pieces gives back the pieces. */
  lemma {:induction false} SplitJoin(parts: seq<string>, sep: char)
    requires |parts| >= 1
    requires forall i :: 0 <= i < |parts| ==> sep !in parts[i]
    ensures Split(Join(parts, sep), sep) == parts
    decreases |parts|
  {
    if |parts| == 1 {
      SplitWithoutSeparator(parts[0], sep);
    } else {
      SplitJoin(parts[1..], sep);
      SplitAfterSeparator(parts[0], sep, Join(parts[1..], sep));
      assert [parts[0]] + parts[1..] == parts;
    }
  }

  // ---------------------------------------------------------------------------
  // s.split(sep, 1)[0]
  // ---------------------------------------------------------------------------

  /** Python's `s.split(sep, 1)[0]`: the text before the first separator,
      or all of `s` when it has none. */
  function BeforeFirst(s: string, sep: char): (r: string)
    ensures |r| <= |s| && r == s[..|r|]
    ensures sep !in r
    ensures |r| == |s| || s[|r|] == sep
    decreases |s|
  {
    if s == [] || s[0] == sep then ""
    else [s[0]] + BeforeFirst(s[1..], sep)
  }

  /** `split(sep, 1)[0]` is the first piece of the full split. */
  lemma {:induction false} BeforeFirstIsFirstPiece(s: string, sep: char)
    ensures BeforeFirst(s, sep) == Split(s, sep)[0]
    decreases |s|
  {
    if s != [] && s[0] != sep {
      BeforeFirstIsFirstPiece(s[1..], sep);
    }
  }

  /** Whatever follows the first separator never influences the head. */
  lemma {:induction false} BeforeFirstIgnoresTail(head: string, sep: char, tail: string)
    requires sep !in head
    ensures BeforeFirst(head + [sep] + tail, sep) == head
    decreases |head|
  {
    var s := head + [sep] + tail;
    if head == [] {
      assert s[0] == sep;
    } else {
      assert s[1..] == head[1..] + [sep] + tail;
      BeforeFirstIgnoresTail(head[1..], sep, tail);
      assert [head[0]] + head[1..] == head;
    }
  }

  // ---------------------------------------------------------------------------
  // str(n) for integers
  // ---------------------------------------------------------------------------

  predicate IsDigit(c: char) { '0' <= c <= '9' }

  predicate AllDigits(s: string) { forall i :: 0 <= i < |s| ==> IsDigit(s[i]) }

  function DigitValue(c: char): (d: nat)
    requires IsDigit(c)
    ensures d < 10
  {
    c as int - '0' as int
  }

  function DigitChar(d: nat): (c: char)
    requires d < 10
    ensures IsDigit(c) && c as int - '0' as int == d
  {
    ('0' as int + d) as char
  }

  /** Python's `str(n)` for a non-negative integer: decimal digits, most
      significant first, with no leading zero. */
  function NatToDecimal(n: nat): (s: string)
    ensures |s| >= 1
    ensures AllDigits(s)
    ensures s[0] == '0' ==> n == 0
    ensures |s| == 1 || s[0] != '0'
    decreases n
  {
    if n < 10 then [DigitChar(n)] else NatToDecimal(n / 10) + [DigitChar(n % 10)]
  }

  /** Python's `str(n)` for any integer: a `-` sign before negative values. */
  function IntToDecimal(n: int): (s: string)
    ensures |s| >= 1
    ensures n < 0 <==> s[0] == '-'
    ensures n < 0 ==> |s| >= 2 && AllDigits(s[1..])
    ensures n >= 0 ==> AllDigits(s)
    ensures n < 0 ==> s[1] != '0'
    ensures n >= 0 ==> |s| == 1 || s[0] != '0'
  {
    if n < 0 then "-" + NatToDecimal(-n) else NatToDecimal(n)
  }

  /** The value a string of decimal digits denotes. */
  function DecimalValue(s: string): nat
    requires AllDigits(s)
    decreases |s|
  {
    if s == [] then 0
    else DecimalValue(s[..|s| - 1]) * 10 + DigitValue(s[|s| - 1])
  }

  /** The value denoted by an optionally signed decimal numeral, if it is one. */
  function ParseInt(s: string): Option<int>
  {
    if |s| >= 2 && s[0] == '-' && AllDigits(s[1..]) then
      Some(0 - DecimalValue(s[1..]))
    else if |s| >= 1 && AllDigits(s) then
      Some(DecimalValue(s))
    else None
  }

  /** The digits of a natural number denote that number. */
  lemma {:induction false} NatDecimalRoundTrip(n: nat)
    ensures DecimalValue(NatToDecimal(n)) == n
    decreases n
  {
    if n >= 10 {
      NatDecimalRoundTrip(n / 10);
      var s := NatToDecimal(n);
      assert s[..|s| - 1] == NatToDecimal(n / 10);
    }
  }

  /** Reading back the rendered numeral gives the integer that was rendered. */
  lemma IntDecimalRoundTrip(n: int)
    ensures ParseInt(IntToDecimal(n)) == Some(n)
  {
    var s := IntToDecimal(n);
    if n < 0 {
      var digits := NatToDecimal(-n);
      assert s == "-" + digits && s[1..] == digits;
      NatDecimalRoundTrip(-n);
      assert |s| >= 2 && s[0] == '-' && AllDigits(s[1..]);
    } else {
      NatDecimalRoundTrip(n);
      assert IsDigit(s[0]);
      assert s[0] != '-';
    }
  }

  // ---------------------------------------------------------------------------
  // template.format(**fields)
  // ---------------------------------------------------------------------------

  /** Why Python's `str.format` refuses a template. */
  datatype FormatError =
    | UnclosedField           // a `{` with no `}` before the next `{` or the end
    | SingleCloseBrace        // a `}` that is neither doubled nor closes a field
    | MissingField(name: string)  // a field whose name is not among the arguments

  predicate IsBrace(c: char) { c == '{' || c == '}' }

  /** Index of the first brace in `s`, or `|s|` when there is none. */
  function FirstBrace(s: string): (k: nat)
    ensures k <= |s|
    ensures forall i :: 0 <= i < k ==> !IsBrace(s[i])
    ensures k < |s| ==> IsBrace(s[k])
    decreases |s|
  {
    if s == [] || IsBrace(s[0]) then 0 else 1 + FirstBrace(s[1..])
  }

  /** `text` placed before a successful result; errors pass through. */
  function Prepend(text: string, r: Result<string, FormatError>): Result<string, FormatError>
  {
    match r
    case Success(s) => Success(text + s)
    case Failure(e) => Failure(e)
  }

  /** Python's `t.format(**args)` for templates whose fields are plain names:
      `{{` and `}}` stand for literal braces, `{name}` for `args[name]`.
      Substituted values are inserted verbatim, never re-scanned. */
  function Format(t: string, args: map<string, string>): (r: Result<string, FormatError>)
    ensures (forall i :: 0 <= i < |t| ==> !IsBrace(t[i])) ==> r == Success(t)
    ensures r.Failure? && r.error.MissingField? ==> r.error.name !in args
    decreases |t|
  {
    if t == [] then Success("")
    else if |t| >= 2 && t[0] == '{' && t[1] == '{' then Prepend("{", Format(t[2..], args))
    else if |t| >= 2 && t[0] == '}' && t[1] == '}' then Prepend("}", Format(t[2..], args))
    else if t[0] == '{' then
      var k := FirstBrace(t[1..]);
      if k == |t| - 1 || t[1 + k] == '{' then Failure(UnclosedField)
      else
        var name := t[1..1 + k];
        if name in args then Prepend(args[name], Format(t[k + 2..], args))
        else Failure(MissingField(name))
    else if t[0] == '}' then Failure(SingleCloseBrace)
    else
      assert [t[0]] + t[1..] == t;
      Prepend([t[0]], Format(t[1..], args))
  }

  /** How one literal character is written inside a format template. */
  function EscapeChar(c: char): string
  {
    if IsBrace(c) then [c, c] else [c]
  }

  /** How a literal text is written inside a format template: every brace doubled. */
  function Escape(s: string): string
    decreases |s|
  {
    if s == [] then "" else EscapeChar(s[0]) + Escape(s[1..])
  }

  /** One escaped character renders as itself. */
  lemma FormatEscapedChar(c: char, v: string, args: map<string, string>)
    ensures Format(EscapeChar(c) + v, args) == Prepend([c], Format(v, args))
  {
    var u := EscapeChar(c) + v;
    if IsBrace(c) {
      assert u[2..] == v;
    } else {
      assert u[1..] == v;
    }
  }

  lemma PrependTwice(a: string, b: string, r: Result<string, FormatError>)
    ensures Prepend(a, Prepend(b, r)) == Prepend(a + b, r)
  {
    if r.Success? {
      assert a + (b + r.value) == (a + b) + r.value;
    }
  }

  /** An escaped literal renders as itself, followed by the rest of the template. */
  lemma {:induction false} FormatEscaped(s: string, t: string, args: map<string, string>)
    ensures Format(Escape(s) + t, args) == Prepend(s, Format(t, args))
    decreases |s|
  {
    if s == [] {
      assert Escape(s) + t == t;
      if Format(t, args).Success? {
        assert s + Format(t, args).value == Format(t, args).value;
      }
    } else {
      var v := Escape(s[1..]) + t;
      assert Escape(s) + t == EscapeChar(s[0]) + v;
      FormatEscapedChar(s[0], v, args);
      FormatEscaped(s[1..], t, args);
      PrependTwice([s[0]], s[1..], Format(t, args));
      assert [s[0]] + s[1..] == s;
    }
  }

  /** A template made only of escaped text renders as that text. */
  lemma FormatLiteral(s: string, args: map<string, string>)
    ensures Format(Escape(s), args) == Success(s)
  {
    FormatEscaped(s, "", args);
    assert Escape(s) + "" == Escape(s);
    assert s + "" == s;
  }

  /** How a field is written inside a format template. */
  function Field(name: string): string
  {
    "{" + name + "}"
  }

  /** A field `{name}` renders as its argument, followed by the rest. */
  lemma FormatField(name: string, t: string, args: map<string, string>)
    requires forall i :: 0 <= i < |name| ==> !IsBrace(name[i])
    ensures name in args ==> Format(Field(name) + t, args) == Prepend(args[name], Format(t, args))
    ensures name !in args ==> Format(Field(name) + t, args) == Failure(MissingField(name))
  {
    var u := Field(name) + t;
    assert u == ['{'] + (name + ['}'] + t);
    assert u[1..] == name + "}" + t;
    assert (name + ['}'] + t)[|name|] == '}';
    FirstBraceAt(name, "}" + t);
    assert FirstBrace(u[1..]) == |name|;
    assert u[0] == '{' && u[1 + |name|] == '}';
    assert |u| >= 2 && u[1] != '{' by {
      if |name| > 0 {
        assert u[1] == name[0];
      }
    }
    assert u[1..1 + |name|] == name;
    assert u[|name| + 2..] == t;
  }

  lemma {:induction false} FirstBraceAt(p: string, t: string)
    requires forall i :: 0 <= i < |p| ==> !IsBrace(p[i])
    requires |t| >= 1 && IsBrace(t[0])
    ensures FirstBrace(p + t) == |p|
    decreases |p|
  {
    if p != [] {
      assert (p + t)[1..] == p[1..] + t;
      FirstBraceAt(p[1..], t);
    }
  }
}
