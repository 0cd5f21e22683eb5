/** parser_utils.py: the argument converters of the command line. Strings are
    sequences of code points; `int()` is modelled on ASCII decimal literals. */
module CliParse {
  import opened Common

  /** The values the converters receive: command-line text, or a Python int,
      bool or None passed by other code. */
  datatype PyValue = Text(s: string) | Integer(i: int) | Boolean(b: bool) | NoneValue

  function CommaCount(s: string): nat {
    if |s| == 0 then 0 else CommaCount(s[..|s| - 1]) + (if s[|s| - 1] == ',' then 1 else 0)
  }

  function Join(pieces: seq<string>): string
    requires |pieces| > 0
  {
    if |pieces| == 1 then pieces[0] else Join(pieces[..|pieces| - 1]) + "," + pieces[|pieces| - 1]
  }

  /** `str.split(',')`: the comma-free pieces between the commas, one more than
      there are commas; joining them with commas gives the input back. */
  function Split(s: string): (pieces: seq<string>)
    ensures |pieces| == CommaCount(s) + 1
    ensures forall i :: 0 <= i < |pieces| ==> ',' !in pieces[i]
    ensures Join(pieces) == s
  {
    if |s| == 0 then [""]
    else
      var front := Split(s[..|s| - 1]);
      var c := s[|s| - 1];
      assert s == s[..|s| - 1] + [c];
      if c == ',' then
        var r := front + [""];
        assert r[..|r| - 1] == front;
        r
      else
        var last := front[|front| - 1] + [c];
        var r := front[..|front| - 1] + [last];
        assert forall i :: 0 <= i < |r| - 1 ==> r[i] == front[i];
        JoinLast(front, c);
        r
  }

  lemma JoinLast(pieces: seq<string>, c: char)
    requires |pieces| > 0
    ensures var r := pieces[..|pieces| - 1] + [pieces[|pieces| - 1] + [c]];
            Join(r) == Join(pieces) + [c]
  {
    var r := pieces[..|pieces| - 1] + [pieces[|pieces| - 1] + [c]];
    if |pieces| > 1 {
      assert r[..|r| - 1] == pieces[..|pieces| - 1];
    }
  }

  /** Splitting the commas back out of joined comma-free pieces recovers them. */
  lemma {:induction false} SplitJoin(pieces: seq<string>)
    requires |pieces| > 0
    requires forall i :: 0 <= i < |pieces| ==> ',' !in pieces[i]
    ensures Split(Join(pieces)) == pieces
  {
    if |pieces| == 1 {
      NoCommaSplit(pieces[0]);
    } else {
      var front := pieces[..|pieces| - 1];
      var last := pieces[|pieces| - 1];
      assert forall i :: 0 <= i < |front| ==> ',' !in front[i] by {
        forall i | 0 <= i < |front| ensures ',' !in front[i] {
          assert front[i] == pieces[i];
        }
      }
      SplitJoin(front);
      SplitAfterComma(Join(front), last);
      FrontLast(pieces);
      calc {
        Split(Join(pieces));
        Split(Join(front) + "," + last);
        Split(Join(front)) + [last];
        front + [last];
        pieces;
      }
    }
  }

  lemma {:induction false} NoCommaSplit(p: string)
    requires ',' !in p
    ensures Split(p) == [p]
  {
    if |p| > 0 {
      var f := p[..|p| - 1];
      assert ',' !in f by {
        forall i | 0 <= i < |f| ensures f[i] != ',' {
          assert f[i] == p[i];
        }
      }
      NoCommaSplit(f);
      assert f + [p[|p| - 1]] == p;
    }
  }

  /** Appending ",p" with a comma-free p appends one piece. */
  lemma {:induction false} SplitAfterComma(s: string, p: string)
    requires ',' !in p
    ensures Split(s + "," + p) == Split(s) + [p]
  {
    if |p| == 0 {
      assert (s + "," + p)[..|s + "," + p| - 1] == s;
    } else {
      var f := p[..|p| - 1];
      var c := p[|p| - 1];
      assert ',' !in f by {
        forall i | 0 <= i < |f| ensures f[i] != ',' {
          assert f[i] == p[i];
        }
      }
      SplitAfterComma(s, f);
      assert (s + "," + p)[..|s + "," + p| - 1] == s + "," + f;
      assert f + [c] == p;
    }
  }

  /** `str.isspace()` for one code point. */
  predicate IsSpace(c: char) {
    || (9 <= c as int <= 13) || (28 <= c as int <= 32)
    || c as int == 0x85 || c as int == 0xA0 || c as int == 0x1680
    || (0x2000 <= c as int <= 0x200A)
    || c as int == 0x2028 || c as int == 0x2029 || c as int == 0x202F
    || c as int == 0x205F || c as int == 0x3000
  }

  /** The whitespace `int()` skips around a literal. CPython hands ASCII text
      to its number parser unchanged, and that parser skips only the ASCII
      spaces (tab, line feed, vertical tab, form feed, carriage return,
      space); other `str.isspace()` code points outside ASCII are first mapped
      to a space. The ASCII separators U+001C..U+001F are `isspace()` but are
      not skipped. */
  predicate IntSpace(c: char) {
    IsSpace(c) && !(28 <= c as int <= 31)
  }

  /** The number of code points at the start of s that `space` holds for. */
  function Leading(s: string, space: char -> bool): (n: nat)
    ensures n <= |s|
    ensures forall i :: 0 <= i < n ==> space(s[i])
    ensures n < |s| ==> !space(s[n])
  {
    if |s| == 0 || !space(s[0]) then 0
    else
      var n := Leading(s[1..], space);
      assert forall i :: 1 <= i < n + 1 ==> s[i] == s[1..][i - 1];
      n + 1
  }

  /** The number of code points at the end of s that `space` holds for. */
  function Trailing(s: string, space: char -> bool): (n: nat)
    ensures n <= |s|
    ensures forall i :: |s| - n <= i < |s| ==> space(s[i])
    ensures n < |s| ==> !space(s[|s| - n - 1])
  {
    if |s| == 0 || !space(s[|s| - 1]) then 0
    else
      var n := Trailing(s[..|s| - 1], space);
      assert forall i :: |s| - 1 - n <= i < |s| - 1 ==> s[i] == s[..|s| - 1][i];
      n + 1
  }

  /** The input minus its leading and trailing `space` code points: the infix
      that starts after the leading ones, with neither end a `space` one. */
  function StripWith(s: string, space: char -> bool): (r: string)
    ensures Leading(s, space) + |r| <= |s| && r == s[Leading(s, space)..Leading(s, space) + |r|]
    ensures |r| > 0 ==> !space(r[0]) && !space(r[|r| - 1])
  {
    var a := Leading(s, space);
    var t := s[a..];
    var r := t[..|t| - Trailing(t, space)];
    assert |r| > 0 ==> r[0] == s[a];
    r
  }

  /** `str.strip()`: the input minus its leading and trailing whitespace. */
  function Strip(s: string): (r: string)
    ensures Leading(s, IsSpace) + |r| <= |s| && r == s[Leading(s, IsSpace)..Leading(s, IsSpace) + |r|]
    ensures |r| > 0 ==> !IsSpace(r[0]) && !IsSpace(r[|r| - 1])
  {
    StripWith(s, IsSpace)
  }

  /** What `int()` removes around a literal. */
  function IntStrip(s: string): (r: string)
    ensures Leading(s, IntSpace) + |r| <= |s| && r == s[Leading(s, IntSpace)..Leading(s, IntSpace) + |r|]
    ensures |r| > 0 ==> !IntSpace(r[0]) && !IntSpace(r[|r| - 1])
  {
    StripWith(s, IntSpace)
  }

  /** Every character stripped away is whitespace. */
  lemma StripRemovesSpace(s: string)
    ensures var i := Leading(s, IsSpace);
            var j := i + |Strip(s)|;
            && (forall k :: 0 <= k < i ==> IsSpace(s[k]))
            && (forall k :: j <= k < |s| ==> IsSpace(s[k]))
  {
    var a := Leading(s, IsSpace);
    var t := s[a..];
    var b := Trailing(t, IsSpace);
    assert forall k :: a + |t| - b <= k < |s| ==> s[k] == t[k - a];
  }

  /** Inner spaces and quotes survive stripping: a value without whitespace at
      its ends is its own strip. */
  lemma StripKeepsInner(s: string)
    requires |s| == 0 || (!IsSpace(s[0]) && !IsSpace(s[|s| - 1]))
    ensures Strip(s) == s
  {
    KeepsInner(s, IsSpace);
  }

  lemma KeepsInner(s: string, space: char -> bool)
    requires |s| == 0 || (!space(s[0]) && !space(s[|s| - 1]))
    ensures StripWith(s, space) == s
  {
    assert Leading(s, space) == 0;
    assert s[0..] == s;
    assert Trailing(s, space) == 0;
  }

  /** Stripping twice is stripping once. */
  lemma StripIdempotent(s: string)
    ensures Strip(Strip(s)) == Strip(s)
  {
    StripKeepsInner(Strip(s));
  }

  /** Line 31: `v in ("True", "true", 1)`. Python's `True == 1`, so the bool
      True is in the tuple too. */
  function Str2Bool(v: PyValue): (b: bool)
    ensures b <==> v == Text("True") || v == Text("true") || v == Integer(1) || v == Boolean(true)
  {
    match v
    case Text(s) => s == "True" || s == "true"
    case Integer(i) => i == 1
    case Boolean(x) => x
    case NoneValue => false
  }

  /** Line 43: one boolean per comma piece; pieces are not stripped, so
      "False, True" gives two falses. */
  function ListOfBools(arg: string): (r: seq<bool>)
    ensures |r| == CommaCount(arg) + 1
    ensures forall i :: 0 <= i < |r| ==> (r[i] <==> Split(arg)[i] == "True" || Split(arg)[i] == "true")
  {
    var pieces := Split(arg);
    seq(|pieces|, i requires 0 <= i < |pieces| => Str2Bool(Text(pieces[i])))
  }

  predicate IsDigit(c: char) {
    '0' <= c <= '9'
  }

  function DigitValue(c: char): nat
    requires IsDigit(c)
  {
    c as int - '0' as int
  }

  /** The value of a string of decimal digits. */
  function DigitsValue(ds: string): nat
    requires AllDigits(ds)
  {
    if |ds| == 0 then 0 else 10 * DigitsValue(ds[..|ds| - 1]) + DigitValue(ds[|ds| - 1])
  }

  predicate AllDigits(ds: string) {
    forall i :: 0 <= i < |ds| ==> IsDigit(ds[i])
  }

  /** The text after an optional leading sign. */
  function Unsigned(t: string): string {
    if |t| > 0 && (t[0] == '+' || t[0] == '-') then t[1..] else t
  }

  /** The decimal grammar of `int()`: optional surrounding whitespace, an
      optional sign, one or more ASCII digits. */
  predicate IsIntLiteral(s: string) {
    |Unsigned(IntStrip(s))| > 0 && AllDigits(Unsigned(IntStrip(s)))
  }

  /** `int()` of text already stripped: an optional sign, then digits. */
  function Signed(t: string): (r: Option<int>)
    ensures r.Some? <==> |Unsigned(t)| > 0 && AllDigits(Unsigned(t))
    ensures r.Some? && r.value < 0 ==> t[0] == '-'
  {
    var body := Unsigned(t);
    if |body| > 0 && AllDigits(body) then
      var n: int := DigitsValue(body);
      Some(if |t| > 0 && t[0] == '-' then -n else n)
    else None
  }

  /** `int()` of a string: defined exactly on the literals, negative exactly
      when the literal carries a minus sign and a nonzero digit. */
  function ParseInt(s: string): (r: Option<int>)
    ensures r.Some? <==> IsIntLiteral(s)
    ensures r.Some? && r.value < 0 ==> IntStrip(s)[0] == '-'
  {
    Signed(IntStrip(s))
  }

  /** `int()` does not skip the ASCII separators that `str.strip()` removes:
      a file separator before a digit is stripped as whitespace but makes the
      text no integer literal. */
  lemma SeparatorIsNoIntSpace()
    ensures Strip("\U{1C}5") == "5"
    ensures ParseInt("\U{1C}5") == None
  {
    var s := "\U{1C}5";
    assert IsSpace(s[0]) && !IsSpace(s[1]);
    assert Leading(s, IsSpace) == 1;
    assert Leading(s, IntSpace) == 0;
    assert IntStrip(s) == s by { KeepsInner(s, IntSpace); }
  }

  /** Bare digits read as their value, and with a minus sign as its negation. */
  lemma SignedDigits(ds: string)
    requires |ds| > 0 && AllDigits(ds)
    ensures Signed(ds) == Some(DigitsValue(ds))
    ensures Signed("-" + ds) == Some(0 - DigitsValue(ds))
  {
    assert IsDigit(ds[0]);
    assert Unsigned(ds) == ds;
    assert Unsigned("-" + ds) == ds;
  }

  function DigitChar(d: int): (c: char)
    requires 0 <= d < 10
    ensures IsDigit(c) && DigitValue(c) == d
  {
    (d + '0' as int) as char
  }

  /** Decimal rendering of a natural number, as `str()` writes it. */
  function Render(n: nat): (ds: string)
    ensures |ds| > 0
    ensures AllDigits(ds)
    ensures DigitsValue(ds) == n
    decreases n
  {
    if n < 10 then [DigitChar(n)]
    else
      var front := Render(n / 10);
      var ds := front + [DigitChar(n % 10)];
      assert ds[..|ds| - 1] == front;
      ds
  }

  lemma DigitsClean(ds: string)
    requires |ds| > 0 && AllDigits(ds)
    ensures IntStrip(ds) == ds
    ensures IntStrip("-" + ds) == "-" + ds
  {
    assert IsDigit(ds[0]) && IsDigit(ds[|ds| - 1]);
    KeepsInner(ds, IntSpace);
    var t := "-" + ds;
    assert t[|t| - 1] == ds[|ds| - 1];
    KeepsInner(t, IntSpace);
  }

  /** The string `str(n)` of a natural number parses back to n. */
  lemma ParseRender(n: nat)
    ensures ParseInt(Render(n)) == Some(n)
  {
    DigitsClean(Render(n));
    SignedDigits(Render(n));
  }

  /** The string `str(n)` of a negative number parses back to n. */
  lemma ParseRenderNegative(n: int)
    requires n < 0
    ensures ParseInt("-" + Render(-n)) == Some(n)
  {
    DigitsClean(Render(-n));
    SignedDigits(Render(-n));
  }

  /** `list(map(parse, pieces))`: the parsed pieces in order, failing at the
      first piece that does not parse. */
  function ParseAll(pieces: seq<string>, parse: string -> Option<int>): (r: Result<seq<int>>)
    ensures r.Err? <==> exists i :: 0 <= i < |pieces| && parse(pieces[i]).None?
    ensures r.Err? ==> r.error == ValueError
    ensures r.Ok? ==> (&& |r.value| == |pieces|
                       && forall i :: 0 <= i < |pieces| ==> parse(pieces[i]) == Some(r.value[i]))
  {
    if |pieces| == 0 then Ok([])
    else
      var front := pieces[..|pieces| - 1];
      assert forall i :: 0 <= i < |front| ==> front[i] == pieces[i];
      var rest :- ParseAll(front, parse);
      match parse(pieces[|pieces| - 1])
      case None => Err(ValueError)
      case Some(n) => Ok(rest + [n])
  }

  /** Every comma piece is an integer literal. */
  predicate AllLiterals(pieces: seq<string>) {
    forall i :: 0 <= i < |pieces| ==> IsIntLiteral(pieces[i])
  }

  lemma LiteralPieces(pieces: seq<string>)
    ensures (exists i :: 0 <= i < |pieces| && ParseInt(pieces[i]).None?) <==> !AllLiterals(pieces)
  {
    if exists i :: 0 <= i < |pieces| && ParseInt(pieces[i]).None? {
      var i :| 0 <= i < |pieces| && ParseInt(pieces[i]).None?;
      assert !IsIntLiteral(pieces[i]);
    }
    if !AllLiterals(pieces) {
      var i :| 0 <= i < |pieces| && !IsIntLiteral(pieces[i]);
      assert ParseInt(pieces[i]).None?;
    }
  }

  /** Line 55: one int per comma piece; any piece that is no integer literal
      raises ValueError. */
  function ListOfInts(arg: string): (r: Result<seq<int>>)
    ensures r.Err? <==> !AllLiterals(Split(arg))
    ensures r.Err? ==> r.error == ValueError
    ensures r.Ok? ==> (&& |r.value| == CommaCount(arg) + 1
                       && forall i :: 0 <= i < |r.value| ==> ParseInt(Split(arg)[i]) == Some(r.value[i]))
  {
    var pieces := Split(arg);
    LiteralPieces(pieces);
    ParseAll(pieces, ParseInt)
  }

  /** Line 67: the stripped comma pieces, one per comma piece. */
  function ListOfStrings(arg: string): (r: seq<string>)
    ensures |r| == CommaCount(arg) + 1
    ensures forall i :: 0 <= i < |r| ==> r[i] == Strip(Split(arg)[i])
  {
    var pieces := Split(arg);
    seq(|pieces|, i requires 0 <= i < |pieces| => Strip(pieces[i]))
  }

  /** Each name has no whitespace at either end, holds no comma, and sits
      whole inside its comma piece. */
  lemma ListOfStringsClean(arg: string, i: int)
    requires 0 <= i < |ListOfStrings(arg)|
    ensures var r := ListOfStrings(arg)[i];
            && (|r| == 0 || (!IsSpace(r[0]) && !IsSpace(r[|r| - 1])))
            && ',' !in r
            && Strip(r) == r
  {
    var r := ListOfStrings(arg)[i];
    var p := Split(arg)[i];
    assert r == Strip(p);
    assert ',' !in p;
    StripNoNewComma(p);
    StripKeepsInner(r);
  }

  /** Stripping a comma-free piece leaves it comma-free. */
  lemma StripNoNewComma(p: string)
    requires ',' !in p
    ensures ',' !in Strip(p)
  {
    var r := Strip(p);
    var a := Leading(p, IsSpace);
    assert a + |r| <= |p| && r == p[a..a + |r|];
    forall k | 0 <= k < |r| ensures r[k] != ',' {
      assert r[k] == p[a + k];
    }
  }

  /** The names of a list of strings are already clean: converting the joined
      list again gives the same list. */
  lemma ListOfStringsStable(arg: string)
    ensures ListOfStrings(Join(ListOfStrings(arg))) == ListOfStrings(arg)
  {
    var r := ListOfStrings(arg);
    forall i | 0 <= i < |r| ensures ',' !in r[i] && Strip(r[i]) == r[i] {
      ListOfStringsClean(arg, i);
    }
    SplitJoin(r);
  }

  /** Lines 82-85: `int(value)`, None on ValueError. `int(None)` raises
      TypeError, which is not caught. */
  function IntOrNone(v: PyValue): (r: Result<Option<int>>)
    ensures r.Err? <==> v == NoneValue
    ensures r.Err? ==> r.error == TypeError
    ensures v.Text? ==> r == Ok(ParseInt(v.s))
    ensures v.Integer? ==> r == Ok(Some(v.i))
    ensures v.Boolean? ==> r == Ok(Some(if v.b then 1 else 0))
  {
    match v
    case Text(s) => Ok(ParseInt(s))
    case Integer(i) => Ok(Some(i))
    case Boolean(b) => Ok(Some(if b then 1 else 0))
    case NoneValue => Err(TypeError)
  }

  function AsciiLower(c: char): char {
    if 'A' <= c <= 'Z' then (c as int + 32) as char else c
  }

  /** `arg.lower() == 'none'`: "none" in any letter case. */
  predicate IsNoneWord(arg: string) {
    |arg| == 4 && AsciiLower(arg[0]) == 'n' && AsciiLower(arg[1]) == 'o'
    && AsciiLower(arg[2]) == 'n' && AsciiLower(arg[3]) == 'e'
  }

  /** Lines 13-19: None for "none" in any case, else `int(arg)`. On a bad value
      the handler prints and calls `sys.exit`, but `sys` is never imported, so
      a NameError escapes. */
  function ParseZValues(arg: string): (r: Result<Option<int>>)
    ensures IsNoneWord(arg) ==> r == Ok(None)
    ensures !IsNoneWord(arg) ==> (r.Err? <==> ParseInt(arg).None?)
    ensures r.Err? ==> r.error == NameError
    ensures !IsNoneWord(arg) && r.Ok? ==> r.value.Some? && ParseInt(arg) == r.value
  {
    if IsNoneWord(arg) then Ok(None)
    else match ParseInt(arg)
      case Some(n) => Ok(Some(n))
      case None => Err(NameError)
  }

  /** Every spelling of "none" maps to None, and no integer is ever read as
      None: a rendered integer parses to itself. */
  lemma ZValueCases(n: int)
    ensures ParseZValues("None") == Ok(None) && ParseZValues("NONE") == Ok(None) && ParseZValues("none") == Ok(None)
    ensures n >= 0 ==> ParseZValues(Render(n)) == Ok(Some(n))
  {
    assert IsNoneWord("None") by { assert AsciiLower('N') == 'n'; }
    assert IsNoneWord("NONE") by {
      assert AsciiLower('N') == 'n' && AsciiLower('O') == 'o' && AsciiLower('E') == 'e';
    }
    assert IsNoneWord("none");
    if n >= 0 {
      ParseRender(n);
      DigitsNotNone(Render(n));
    }
  }

  lemma DigitsNotNone(ds: string)
    requires |ds| > 0 && AllDigits(ds)
    ensures !IsNoneWord(ds)
  {
    assert IsDigit(ds[0]);
  }
}
