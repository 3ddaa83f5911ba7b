/**
  The two conversions between integers and text that the bot relies on:
  `int(text)`, which turns the administrator's score message into a number,
  and `str(user.id)`, which turns a platform user id into the key of the
  score table.

  `int(text)` is modelled on a subset of what CPython accepts: surrounding
  ASCII whitespace, an optional sign, then decimal digits with single
  underscores allowed between them. Digits may be ASCII, Arabic-Indic
  (U+0660..U+0669) or Extended Arabic-Indic/Persian (U+06F0..U+06F9); CPython
  accepts the digits of every Unicode script and every Unicode space, which
  this model does not.
*/
module IntText {
  import opened Wrappers

  /** The whitespace stripped around a number (ASCII part of Python's set). */
  predicate IsSpace(c: char) {
    c == ' ' || c == '\t' || c == '\n' || c == '\r' || c == '\U{B}' || c == '\U{C}'
  }

  predicate IsDecimalDigit(c: char) {
    ('0' <= c <= '9') || ('\U{660}' <= c <= '\U{669}') || ('\U{6F0}' <= c <= '\U{6F9}')
  }

  function DigitValue(c: char): (d: nat)
    requires IsDecimalDigit(c)
    ensures d < 10
  {
    if '0' <= c <= '9' then c as int - '0' as int
    else if '\U{660}' <= c <= '\U{669}' then c as int - '\U{660}' as int
    else c as int - '\U{6F0}' as int
  }

  function TrimStart(s: string): string {
    if |s| > 0 && IsSpace(s[0]) then TrimStart(s[1..]) else s
  }

  function TrimEnd(s: string): string {
    if |s| > 0 && IsSpace(s[|s| - 1]) then TrimEnd(s[..|s| - 1]) else s
  }

  /** Python's `str.strip()` with the whitespace set above. */
  function Strip(s: string): string {
    TrimEnd(TrimStart(s))
  }

  /** The digit part of an integer literal: `digit (["_"] digit)*`. */
  predicate IsDigitPart(s: string) {
    && |s| > 0
    && IsDecimalDigit(s[0])
    && IsDecimalDigit(s[|s| - 1])
    && (forall i :: 0 <= i < |s| ==> IsDecimalDigit(s[i]) || s[i] == '_')
    && (forall i :: 0 < i < |s| ==> s[i - 1] != '_' || s[i] != '_')
  }

  function DropUnderscores(s: string): (r: string)
    requires forall i :: 0 <= i < |s| ==> IsDecimalDigit(s[i]) || s[i] == '_'
    ensures forall i :: 0 <= i < |r| ==> IsDecimalDigit(r[i])
  {
    if s == [] then []
    else (if s[0] == '_' then [] else [s[0]]) + DropUnderscores(s[1..])
  }

  /** The number a string of decimal digits denotes, most significant digit first. */
  function DecimalValue(ds: string): nat
    requires forall i :: 0 <= i < |ds| ==> IsDecimalDigit(ds[i])
  {
    if ds == [] then 0 else DecimalValue(ds[..|ds| - 1]) * 10 + DigitValue(ds[|ds| - 1])
  }

  /** A digit part without its sign: the number it denotes, or nothing when it is malformed. */
  function ParseUnsigned(body: string): Option<nat> {
    if IsDigitPart(body) then Some(DecimalValue(DropUnderscores(body))) else None
  }

  /** `int(text)`: the integer the text denotes, or nothing where Python raises ValueError. */
  function ParseInt(s: string): (r: Option<int>)
    ensures r.Some? ==> |Strip(s)| > 0 && IsDecimalDigit(Strip(s)[|Strip(s)| - 1])
    ensures r.Some? && r.value < 0 ==> Strip(s)[0] == '-'
  {
    var t := Strip(s);
    if |t| > 0 && t[0] == '-' then
      match ParseUnsigned(t[1..])
      case Some(n) => Some(-(n as int))
      case None => None
    else if |t| > 0 && t[0] == '+' then ParseUnsigned(t[1..])
    else ParseUnsigned(t)
  }

  function AsciiDigit(d: nat): (c: char)
    requires d < 10
    ensures '0' <= c <= '9' && DigitValue(c) == d
  {
    ('0' as int + d) as char
  }

  /** `str(n)` for a non-negative integer: its shortest ASCII decimal form. */
  function ShowNat(n: nat): (s: string)
    ensures |s| > 0 && forall i :: 0 <= i < |s| ==> '0' <= s[i] <= '9'
    ensures n > 0 ==> s[0] != '0'
    ensures n == 0 ==> s == "0"
  {
    if n < 10 then [AsciiDigit(n)] else ShowNat(n / 10) + [AsciiDigit(n % 10)]
  }

  /** `str(n)`: a minus sign exactly for a negative number, then ASCII digits with no leading zero. */
  function ShowInt(n: int): (s: string)
    ensures |s| > (if n < 0 then 1 else 0) && (s[0] == '-' <==> n < 0)
    ensures forall i :: (if n < 0 then 1 else 0) <= i < |s| ==> '0' <= s[i] <= '9'
    ensures n != 0 ==> s[if n < 0 then 1 else 0] != '0'
    ensures n == 0 ==> s == "0"
  {
    if n < 0 then "-" + ShowNat(-n) else ShowNat(n)
  }

  lemma {:induction false} ShowNatValue(n: nat)
    ensures DecimalValue(ShowNat(n)) == n
  {
    var s := ShowNat(n);
    if n >= 10 {
      ShowNatValue(n / 10);
      assert s[..|s| - 1] == ShowNat(n / 10);
    }
  }

  lemma {:induction false} DropNoUnderscores(s: string)
    requires forall i :: 0 <= i < |s| ==> IsDecimalDigit(s[i])
    ensures DropUnderscores(s) == s
  {
    if s != [] {
      DropNoUnderscores(s[1..]);
      assert s == [s[0]] + s[1..];
    }
  }

  lemma StripUnpadded(s: string)
    requires |s| > 0 && !IsSpace(s[0]) && !IsSpace(s[|s| - 1])
    ensures Strip(s) == s
  {
  }

  /** Digits without separators read as the number they denote. */
  lemma {:induction false} ParseDigits(ds: string)
    requires |ds| > 0 && forall i :: 0 <= i < |ds| ==> IsDecimalDigit(ds[i])
    ensures ParseUnsigned(ds) == Some(DecimalValue(ds))
  {
    assert IsDigitPart(ds);
    DropNoUnderscores(ds);
  }

  /** Reading back what `str` printed gives the number again: `int(str(n)) == n`. */
  lemma ParseShow(n: int)
    ensures ParseInt(ShowInt(n)) == Some(n)
  {
    var m: nat := if n < 0 then -n else n;
    var ds := ShowNat(m);
    var s := ShowInt(n);
    assert !IsSpace(s[0]) && !IsSpace(s[|s| - 1]);
    StripUnpadded(s);
    ParseDigits(ds);
    ShowNatValue(m);
    if n < 0 {
      assert s[0] == '-' && s[1..] == ds;
    } else {
      assert s == ds && s[0] != '-' && s[0] != '+';
    }
  }

  /** Different user ids give different table keys. */
  lemma ShowIntInjective(a: int, b: int)
    requires ShowInt(a) == ShowInt(b)
    ensures a == b
  {
    ParseShow(a);
    ParseShow(b);
  }

  /** A run of digits with nothing around it reads as the number it denotes. */
  lemma UnsignedDigits(s: string)
    requires |s| > 0 && forall i :: 0 <= i < |s| ==> IsDecimalDigit(s[i])
    ensures ParseInt(s) == Some(DecimalValue(s))
  {
    assert !IsSpace(s[0]) && !IsSpace(s[|s| - 1]);
    StripUnpadded(s);
    assert s[0] != '-' && s[0] != '+';
    ParseDigits(s);
  }

  /** A score typed as a plain number is accepted. */
  lemma ParseIntAccepts()
    ensures ParseInt("10") == Some(10)
  {
    UnsignedDigits("10");
    assert "10"[..1] == "1";
  }

  /** A sign and surrounding whitespace are accepted, as Python's `int` does. */
  lemma ParseIntSignedPadded()
    ensures ParseInt(" -7\n") == Some(-7)
  {
    assert ParseInt(" -7\n") == Some(-7) by {
      assert TrimStart(" -7\n") == "-7\n" by { assert " -7\n"[1..] == "-7\n"; }
      assert TrimEnd("-7\n") == "-7" by { assert "-7\n"[..2] == "-7"; }
      assert "-7"[1..] == "7";
      DropNoUnderscores("7");
    }
  }

  /** Underscores between digits are digit separators, as in Python literals. */
  lemma ParseIntGrouped()
    ensures ParseInt("1_000") == Some(1000)
  {
    assert ParseInt("1_000") == Some(1000) by {
      var grouped := "1_000";
      StripUnpadded(grouped);
      assert IsDigitPart(grouped);
      assert DropUnderscores(grouped) == "1000" by {
        assert grouped[1..] == "_000" && grouped[1..][1..] == "000";
        DropNoUnderscores("000");
      }
      assert "1000"[..3] == "100" && "100"[..2] == "10" && "10"[..1] == "1";
      assert DecimalValue("1000") == 1000;
    }
  }

  /** Python's `int` reads Persian digits itself: "۱۲۳" is 123 without any normalisation. */
  lemma ParseIntPersianDigits()
    ensures ParseInt("\U{6F1}\U{6F2}\U{6F3}") == Some(123)
  {
    assert ParseInt("\U{6F1}\U{6F2}\U{6F3}") == Some(123) by {
      var persian := "\U{6F1}\U{6F2}\U{6F3}";
      UnsignedDigits(persian);
      assert persian[..2] == "\U{6F1}\U{6F2}" && persian[..2][..1] == "\U{6F1}";
      assert DecimalValue("\U{6F1}") == 1;
      assert DecimalValue("\U{6F1}\U{6F2}") == 12;
    }
  }

  /** Words, doubled underscores and a bare sign are not numbers. */
  lemma ParseIntRefuses()
    ensures ParseInt("abc") == None
    ensures ParseInt("1__0") == None
    ensures ParseInt("+") == None
  {
  }
}
