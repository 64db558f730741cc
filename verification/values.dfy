/** The text form of a report field.

    Every field of the gas report reaches the output through a template-literal
    interpolation, which converts the value to text with the language's default
    coercion. The fields hold integers (gas amounts, byte sizes, call counts),
    and a field the report does not have prints as `undefined`. */
module Values {
  import opened Options

  /** A report field: an integer, or a field that is absent from the record. */
  datatype Value = Num(n: int) | Undefined

  predicate IsDigit(c: char) {
    '0' <= c <= '9'
  }

  predicate AllDigits(s: string) {
    forall i :: 0 <= i < |s| ==> IsDigit(s[i])
  }

  function DigitChar(d: nat): (c: char)
    requires d < 10
    ensures IsDigit(c)
    ensures c as int - '0' as int == d
  {
    ('0' as int + d) as char
  }

  function DigitValue(c: char): (d: nat)
    requires IsDigit(c)
    ensures d < 10
  {
    c as int - '0' as int
  }

  /** Decimal digits of `n`, most significant first, with no leading zero. */
  function ShowNat(n: nat): (s: string)
    ensures |s| > 0 && AllDigits(s)
    ensures n > 0 ==> s[0] != '0'
    ensures n < 10 <==> |s| == 1
  {
    if n < 10 then [DigitChar(n)] else ShowNat(n / 10) + [DigitChar(n % 10)]
  }

  /** Decimal form of an integer: a minus sign before the magnitude when negative. */
  function ShowInt(i: int): (s: string)
    ensures |s| > 0
    ensures s[0] == '-' <==> i < 0
  {
    if i < 0 then "-" + ShowNat(-i) else ShowNat(i)
  }

  /** The text a field contributes to the table: `undefined` for an absent
      field, and otherwise the number in decimal, starting with `-` exactly when
      it is negative. It never contains `<`, so the markup around a field is
      never confused with the field itself. */
  function Show(v: Value): (s: string)
    ensures |s| > 0
    ensures '<' !in s
    ensures v.Undefined? ==> s == "undefined"
    ensures v.Num? ==> (s[0] == '-' <==> v.n < 0)
  {
    match v
    case Num(i) => ShowInt(i)
    case Undefined => "undefined"
  }

  /** The value of a string of decimal digits. */
  function ParseDigits(s: string): (n: nat)
    requires AllDigits(s)
  {
    if s == [] then 0 else 10 * ParseDigits(s[..|s| - 1]) + DigitValue(s[|s| - 1])
  }

  /** Reads back a field's text: `undefined`, or an optionally negative decimal
      integer. Anything else is not the text of any field. */
  function ParseValue(t: string): (r: Option<Value>)
    ensures r == Some(Undefined) <==> t == "undefined"
    ensures r.Some? && r.value.Num? ==> |t| > 0 && (IsDigit(t[0]) || t[0] == '-')
  {
    if t == "undefined" then Some(Undefined)
    else if |t| > 1 && t[0] == '-' && AllDigits(t[1..]) then Some(Num(0 - ParseDigits(t[1..]) as int))
    else if |t| > 0 && AllDigits(t) then Some(Num(ParseDigits(t)))
    else None
  }

  lemma {:induction false} ParseShowNat(n: nat)
    ensures ParseDigits(ShowNat(n)) == n
  {
    var s := ShowNat(n);
    if n >= 10 {
      ParseShowNat(n / 10);
      assert s[..|s| - 1] == ShowNat(n / 10);
    }
  }

  /** A number prints as decimal digits with no leading zero, after a `-`
      exactly when it is negative. */
  lemma ShowDecimal(i: int)
    ensures var s := Show(Num(i));
      var digits := if i < 0 then s[1..] else s;
      && |digits| > 0
      && AllDigits(digits)
      && (digits[0] == '0' ==> i == 0)
  {
    if i < 0 {
      assert ("-" + ShowNat(-i))[1..] == ShowNat(-i);
    }
  }

  /** Reading back the text of a field yields that field. */
  lemma ShowRoundTrip(v: Value)
    ensures ParseValue(Show(v)) == Some(v)
  {
    match v
    case Undefined =>
    case Num(i) =>
      var t := ShowInt(i);
      assert t != "undefined" by {
        assert t[0] != 'u';
      }
      if i < 0 {
        var digits := ShowNat(-i);
        assert t[1..] == digits;
        ParseShowNat(-i);
        assert ParseValue(t) == Some(Num(0 - ParseDigits(digits) as int));
      } else {
        ParseShowNat(i);
        assert ParseValue(t) == Some(Num(ParseDigits(t)));
      }
  }

  /** Distinct fields print as distinct text. */
  lemma ShowInjective(a: Value, b: Value)
    ensures Show(a) == Show(b) <==> a == b
  {
    if Show(a) == Show(b) {
      ShowRoundTrip(a);
      ShowRoundTrip(b);
    }
  }
}
