/** The string formatting paging.py relies on: Python's decimal rendering
    of a page number (`"Page {}".format(n)`) and substitution of the `{n}`
    field in an output-path template (`template.format(n=n)`). */
module Formatting {

  predicate IsDigit(c: char)
  {
    '0' <= c <= '9'
  }

  function DigitChar(d: nat): (c: char)
    requires d < 10
  {
    ('0' as int + d) as char
  }

  function DigitValue(c: char): nat
    requires IsDigit(c)
  {
    c as int - '0' as int
  }

  /** The decimal numeral of `n`, as Python's `str(n)` writes it: digits
      only, no sign, no leading zeros. */
  function NatToString(n: nat): (r: string)
    ensures |r| > 0
    ensures forall i :: 0 <= i < |r| ==> IsDigit(r[i])
    ensures |r| > 1 ==> r[0] != '0'
    decreases n
  {
    if n < 10 then [DigitChar(n)] else NatToString(n / 10) + [DigitChar(n % 10)]
  }

  /** The value of a string of decimal digits. */
  function ParseNat(s: string): nat
    requires forall i :: 0 <= i < |s| ==> IsDigit(s[i])
    decreases |s|
  {
    if |s| == 0 then 0 else 10 * ParseNat(s[..|s| - 1]) + DigitValue(s[|s| - 1])
  }

  /** Reading the numeral back gives the number. */
  lemma {:induction false} ParseNatToString(n: nat)
    ensures ParseNat(NatToString(n)) == n
    decreases n
  {
    var s := NatToString(n);
    if n >= 10 {
      assert s[..|s| - 1] == NatToString(n / 10);
      ParseNatToString(n / 10);
    }
  }

  /** Distinct numbers have distinct numerals. */
  lemma NatToStringInjective(a: nat, b: nat)
    ensures NatToString(a) == NatToString(b) <==> a == b
  {
    ParseNatToString(a);
    ParseNatToString(b);
  }

  /** The text starts with the replacement field `{n}`. */
  predicate StartsWithField(t: string)
  {
    |t| >= 3 && t[0] == '{' && t[1] == 'n' && t[2] == '}'
  }

  /** `template.format(n=n)` for a template whose only replacement fields
      are `{n}`: every `{n}` becomes the numeral of `n`, other characters are
      copied. */
  function FormatN(template: string, n: nat): string
    decreases |template|
  {
    if |template| == 0 then []
    else if StartsWithField(template) then NatToString(n) + FormatN(template[3..], n)
    else [template[0]] + FormatN(template[1..], n)
  }

  /** Text with no brace at all: it holds no replacement field, and
      `str.format` copies it unchanged (a lone `}` would be an error). */
  predicate BraceFree(s: string)
  {
    forall i :: 0 <= i < |s| ==> s[i] != '{' && s[i] != '}'
  }

  /** A character other than an opening brace is copied. */
  lemma FormatNCopy(t: string, n: nat)
    requires |t| > 0 && t[0] != '{'
    ensures FormatN(t, n) == [t[0]] + FormatN(t[1..], n)
  {
  }

  /** Text without braces passes through formatting unchanged. */
  lemma {:induction false} FormatNLiteral(prefix: string, rest: string, n: nat)
    requires BraceFree(prefix)
    ensures FormatN(prefix + rest, n) == prefix + FormatN(rest, n)
    decreases |prefix|
  {
    var t := prefix + rest;
    if |prefix| == 0 {
      assert t == rest;
    } else {
      assert t[0] == prefix[0];
      FormatNCopy(t, n);
      assert t[1..] == prefix[1..] + rest;
      assert BraceFree(prefix[1..]) by {
        forall i | 0 <= i < |prefix| - 1
          ensures prefix[1..][i] != '{' && prefix[1..][i] != '}'
        {
          assert prefix[1..][i] == prefix[i + 1];
        }
      }
      FormatNLiteral(prefix[1..], rest, n);
      assert [prefix[0]] + prefix[1..] == prefix;
    }
  }

  /** A `{n}` field is replaced by the numeral. */
  lemma FormatNField(rest: string, n: nat)
    ensures FormatN("{n}" + rest, n) == NatToString(n) + FormatN(rest, n)
  {
    var t := "{n}" + rest;
    assert StartsWithField(t);
    assert t[3..] == rest;
  }

  /** A template with a single `{n}` field between brace-free text formats
      to that text around the numeral. */
  lemma FormatOneField(prefix: string, suffix: string, n: nat)
    requires BraceFree(prefix) && BraceFree(suffix)
    ensures FormatN(prefix + "{n}" + suffix, n) == prefix + NatToString(n) + suffix
  {
    var rest := "{n}" + suffix;
    var numeral := NatToString(n);
    assert prefix + "{n}" + suffix == prefix + rest;
    FormatNLiteral(prefix, rest, n);
    FormatNField(suffix, n);
    FormatNLiteral(suffix, [], n);
    assert suffix + [] == suffix;
    assert FormatN(rest, n) == numeral + suffix;
    assert prefix + (numeral + suffix) == prefix + numeral + suffix;
  }
}
