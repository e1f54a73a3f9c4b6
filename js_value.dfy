/** The JavaScript values that reach the backend (request bodies, token
    payloads, stored fields), and the JavaScript operators the code applies to
    them: truthiness (`!x`), strict equality (`===`), property access,
    `Number(x)` and `parseInt(s, 10)`. Numbers are integers. */
module JsValue {
  import opened Wrappers
  import opened Strings

  datatype Value =
    | Undefined
    | Null
    | Bool(b: bool)
    | Num(n: int)
    | Str(s: string)
    | Arr(items: seq<Value>)
    | Obj(fields: seq<(string, Value)>)

  /** `!!v` */
  predicate Truthy(v: Value)
  {
    match v
    case Undefined => false
    case Null => false
    case Bool(b) => b
    case Num(n) => n != 0
    case Str(s) => s != ""
    case _ => true
  }

  predicate IsPrimitive(v: Value)
  {
    !v.Arr? && !v.Obj?
  }

  /** `a === b`. Arrays and objects compare by reference; every one that reaches
      the backend is freshly parsed from a request, so none is `===` to another. */
  predicate StrictEquals(a: Value, b: Value)
  {
    match (a, b)
    case (Undefined, Undefined) => true
    case (Null, Null) => true
    case (Bool(x), Bool(y)) => x == y
    case (Num(x), Num(y)) => x == y
    case (Str(x), Str(y)) => x == y
    case _ => false
  }

  /** `===` is structural equality on primitives and never holds otherwise. */
  lemma StrictEqualsIff(a: Value, b: Value)
    ensures StrictEquals(a, b) <==> a == b && IsPrimitive(a)
  {
  }

  /** The value of the last binding of `key` (a parsed object keeps the last duplicate). */
  function Lookup(fields: seq<(string, Value)>, key: string): (r: Value)
    ensures r != Undefined ==> exists k :: 0 <= k < |fields| && fields[k] == (key, r)
    decreases |fields|
  {
    if |fields| == 0 then Undefined
    else if fields[|fields| - 1].0 == key then fields[|fields| - 1].1
    else Lookup(fields[..|fields| - 1], key)
  }

  /** `v[key]` on a value that is not `null` or `undefined`. */
  function Get(v: Value, key: string): Value
  {
    match v
    case Obj(fields) => Lookup(fields, key)
    case _ => Undefined
  }

  /** A value `JSON.stringify` can write out and `JSON.parse` read back:
      no `undefined` anywhere and no repeated key in an object. */
  predicate IsJson(v: Value)
  {
    match v
    case Undefined => false
    case Arr(items) => forall i :: 0 <= i < |items| ==> IsJson(items[i])
    case Obj(fields) =>
      && (forall i :: 0 <= i < |fields| ==> IsJson(fields[i].1))
      && (forall i, j :: 0 <= i < j < |fields| ==> fields[i].0 != fields[j].0)
    case _ => true
  }

  predicate IsDigit(c: char)
  {
    '0' <= c <= '9'
  }

  /** The value of `c` as a digit in bases up to 16; 16 when it is no such digit. */
  function DigitOf(c: char): (d: nat)
    ensures d <= 16
    ensures d < 10 <==> IsDigit(c)
  {
    if IsDigit(c) then c as int - '0' as int
    else if 'a' <= c <= 'f' then c as int - 'a' as int + 10
    else if 'A' <= c <= 'F' then c as int - 'A' as int + 10
    else 16
  }

  predicate AllDigitsIn(s: string, base: nat)
  {
    forall i :: 0 <= i < |s| ==> DigitOf(s[i]) < base
  }

  predicate AllDigits(s: string)
  {
    AllDigitsIn(s, 10)
  }

  /** The number a string of digits in `base` denotes. */
  function DigitsValue(s: string, base: nat): (n: nat)
    requires AllDigitsIn(s, base)
    decreases |s|
  {
    if |s| == 0 then 0
    else DigitsValue(s[..|s| - 1], base) * base + DigitOf(s[|s| - 1])
  }

  /** The decimal rendering of `n`, as ids appear in URLs. */
  function Decimal(n: nat): (s: string)
    ensures |s| >= 1 && AllDigits(s)
  {
    if n < 10 then [('0' as int + n) as char]
    else Decimal(n / 10) + [('0' as int + n % 10) as char]
  }

  /** Reading back a decimal rendering gives the number. */
  lemma {:induction false} DigitsValueDecimal(n: nat)
    ensures DigitsValue(Decimal(n), 10) == n
  {
    if n >= 10 {
      var d := Decimal(n);
      assert d[..|d| - 1] == Decimal(n / 10);
      DigitsValueDecimal(n / 10);
    }
  }

  /** The longest prefix of `s` made of decimal digits. */
  function DigitPrefix(s: string): (r: string)
    ensures AllDigits(r) && |r| <= |s| && r == s[..|r|]
    ensures |r| < |s| ==> !IsDigit(s[|r|])
    decreases |s|
  {
    if |s| > 0 && IsDigit(s[0]) then [s[0]] + DigitPrefix(s[1..]) else ""
  }

  /** A digit string followed by a non-digit (or nothing) has exactly that digit prefix. */
  lemma {:induction false} DigitPrefixOf(d: string, rest: string)
    requires AllDigits(d)
    requires |rest| > 0 ==> !IsDigit(rest[0])
    ensures DigitPrefix(d + rest) == d
    decreases |d|
  {
    if |d| > 0 {
      assert (d + rest)[1..] == d[1..] + rest;
      assert IsDigit(d[0]) by { assert DigitOf(d[0]) < 10; }
      DigitPrefixOf(d[1..], rest);
    } else {
      assert d + rest == rest;
    }
  }

  /** `s` split into a sign (`true` for `-`) and what follows it. */
  function SignAndRest(s: string): (bool, string)
  {
    if |s| > 0 && (s[0] == '-' || s[0] == '+') then (s[0] == '-', s[1..]) else (false, s)
  }

  /** `parseInt(s, 10)`: leading white space skipped, an optional sign, then the
      longest run of digits; `None` (NaN) when there is no digit. */
  function ParseInt10(s: string): (r: Option<int>)
    ensures var (negative, rest) := SignAndRest(DropSpaces(s));
      && (r.Some? <==> |rest| > 0 && IsDigit(rest[0]))
      && (r.Some? && !negative ==> r.value >= 0)
      && (r.Some? && negative ==> r.value <= 0)
  {
    var (negative, rest) := SignAndRest(DropSpaces(s));
    var digits := DigitPrefix(rest);
    if |digits| == 0 then None
    else
      var magnitude: int := DigitsValue(digits, 10);
      Some(if negative then -magnitude else magnitude)
  }

  /** `parseInt` reads a decimal number back, ignoring anything after its last digit. */
  lemma ParseIntOfDecimal(n: nat, rest: string)
    requires |rest| > 0 ==> !IsDigit(rest[0])
    ensures ParseInt10(Decimal(n) + rest) == Some(n)
  {
    var s := Decimal(n) + rest;
    assert s[0] == Decimal(n)[0];
    assert DropSpaces(s) == s;
    DigitPrefixOf(Decimal(n), rest);
    DigitsValueDecimal(n);
  }

  /** `s` without trailing white space. */
  function DropTrailingSpaces(s: string): (r: string)
    ensures |r| <= |s| && r == s[..|r|]
    decreases |s|
  {
    if |s| > 0 && IsSpace(s[|s| - 1]) then DropTrailingSpaces(s[..|s| - 1]) else s
  }

  /** A JavaScript number as the backend compares it: NaN, a finite value or an
      infinity. A finite value is the exact value of the literal it came from;
      the rounding to a double is not modelled. */
  datatype Number = NaN | Finite(value: real) | Infinite(negative: bool)

  /** The `TypeError` `Number()` throws when a value has no usable primitive form. */
  const ConversionError := "Cannot convert object to primitive value"

  /** `x * 10^e` */
  function Scaled(x: real, e: int): real
    decreases if e < 0 then -e else e
  {
    if e == 0 then x
    else if e > 0 then Scaled(10.0 * x, e - 1)
    else Scaled(x / 10.0, e + 1)
  }

  /** The base a `0x`, `0o` or `0b` prefix announces; 0 for any other second character. */
  function RadixOf(c: char): (r: nat)
    ensures r <= 16
    ensures r > 0 ==> !IsDigit(c) && c != 'e' && c != 'E' && c != '.'
  {
    if c == 'x' || c == 'X' then 16
    else if c == 'o' || c == 'O' then 8
    else if c == 'b' || c == 'B' then 2
    else 0
  }

  /** An exponent part `e` or `E`, an optional sign, then digits and nothing
      else; the empty string is the exponent 0. */
  function ExponentPart(s: string): Option<int>
  {
    if |s| == 0 then Some(0)
    else if s[0] != 'e' && s[0] != 'E' then None
    else
      var (negative, digits) := SignAndRest(s[1..]);
      if |digits| == 0 || !AllDigits(digits) then None
      else
        var magnitude: int := DigitsValue(digits, 10);
        Some(if negative then -magnitude else magnitude)
  }

  /** Splits what follows the whole digits of a decimal literal into the
      digits after an optional `.` and what comes after them. */
  function FractionOf(s: string): (r: (string, string))
    ensures AllDigits(r.0)
  {
    if |s| > 0 && s[0] == '.' then
      var fraction := DigitPrefix(s[1..]);
      (fraction, s[1 + |fraction|..])
    else ("", s)
  }

  /** Digits with an optional `.` and fraction (at least one digit in all) and
      an optional exponent, making up all of `s`. */
  function DecimalLiteral(s: string): Option<Number>
  {
    var whole := DigitPrefix(s);
    var (fraction, rest) := FractionOf(s[|whole|..]);
    if |whole| + |fraction| == 0 then None
    else match ExponentPart(rest)
      case None => None
      case Some(e) => Some(Finite(Scaled(DigitsValue(whole + fraction, 10) as real, e - |fraction|)))
  }

  /** An unsigned decimal literal that makes up all of `s`: `Infinity`, or a
      literal that starts with a digit or `.`. */
  function UnsignedDecimal(s: string): Option<Number>
  {
    if |s| > 0 && !IsDigit(s[0]) && s[0] != '.' then
      if s == "Infinity" then Some(Infinite(false)) else None
    else DecimalLiteral(s)
  }

  /** The digits after a `0x`, `0o` or `0b` prefix: at least one, all of that base. */
  function RadixInteger(digits: string, base: nat): Number
  {
    if |digits| > 0 && AllDigitsIn(digits, base) then Finite(DigitsValue(digits, base) as real) else NaN
  }

  /** `s` without leading and trailing white space. */
  function Trim(s: string): string
  {
    DropTrailingSpaces(DropSpaces(s))
  }

  /** `t` starts with `0x`, `0o` or `0b` (either case). */
  predicate HasRadixPrefix(t: string)
  {
    |t| >= 2 && t[0] == '0' && RadixOf(t[1]) > 0
  }

  /** An optionally signed decimal literal; NaN when there is none. */
  function SignedDecimal(t: string): Number
  {
    var (negative, rest) := SignAndRest(t);
    match UnsignedDecimal(rest)
    case None => NaN
    case Some(Finite(x)) => Finite(if negative then -x else x)
    case Some(Infinite(_)) => Infinite(negative)
    case Some(NaN) => NaN
  }

  /** `Number(s)` for a string: white space trimmed; `""` is 0; a `0x`, `0o` or
      `0b` prefix followed by digits of that base (no sign allowed); otherwise an
      optionally signed decimal literal; anything else is NaN. */
  function StringToNumber(s: string): Number
  {
    var t := Trim(s);
    if t == "" then Finite(0.0)
    else if HasRadixPrefix(t) then RadixInteger(t[2..], RadixOf(t[1]))
    else SignedDecimal(t)
  }

  /** `String(n)` for an integer. */
  function IntText(n: int): string
  {
    if n < 0 then "-" + Decimal(-n) else Decimal(n)
  }

  /** Whether an object has an own property `key`. */
  predicate HasKey(fields: seq<(string, Value)>, key: string)
  {
    exists i :: 0 <= i < |fields| && fields[i].0 == key
  }

  /** The string a value turns into as an element of `Array.prototype.join`
      (`null` and `undefined` give `""`), which is also the string an array or
      object turns into on the way to a number: their `valueOf` returns the
      value itself, so `toString` decides. An object's inherited `toString`
      gives `"[object Object]"`; an own `toString` property, which a parsed
      value can never make callable, leaves no conversion and throws. `None`
      stands for that `TypeError`. */
  function ElementText(v: Value): (r: Option<string>)
    ensures r.None? ==> !IsPrimitive(v)
    decreases v, 1
  {
    match v
    case Undefined => Some("")
    case Null => Some("")
    case Bool(b) => Some(if b then "true" else "false")
    case Num(n) => Some(IntText(n))
    case Str(s) => Some(s)
    case Arr(items) => JoinTexts(items)
    case Obj(fields) => if HasKey(fields, "toString") then None else Some("[object Object]")
  }

  /** `items.join(',')`, or `None` when an element throws. */
  function JoinTexts(items: seq<Value>): Option<string>
    decreases items, 0
  {
    if |items| == 0 then Some("")
    else match ElementText(items[0])
      case None => None
      case Some(first) =>
        if |items| == 1 then Some(first)
        else match JoinTexts(items[1..])
          case None => None
          case Some(rest) => Some(first + "," + rest)
  }

  /** `Number(v)`: `Err` stands for the `TypeError` it throws. Only arrays and
      objects go through a string, and only they can throw. */
  function ToNumber(v: Value): (r: Result<Number>)
    ensures r.Err? ==> !IsPrimitive(v) && r.message == ConversionError
    ensures v.Num? ==> r == Ok(Finite(v.n as real))
    ensures v.Undefined? ==> r == Ok(NaN)
    ensures v.Str? ==> r == Ok(StringToNumber(v.s))
  {
    match v
    case Undefined => Ok(NaN)
    case Null => Ok(Finite(0.0))
    case Bool(b) => Ok(Finite(if b then 1.0 else 0.0))
    case Num(n) => Ok(Finite(n as real))
    case Str(s) => Ok(StringToNumber(s))
    case _ =>
      match ElementText(v)
      case None => Err(ConversionError)
      case Some(text) => Ok(StringToNumber(text))
  }

  /** A non-empty run of digits is the decimal literal of its value. */
  lemma UnsignedDecimalOfDigits(d: string)
    requires |d| >= 1 && AllDigits(d)
    ensures UnsignedDecimal(d) == Some(Finite(DigitsValue(d, 10) as real))
  {
    DigitPrefixOf(d, "");
    assert d + "" == d;
    assert d[|d|..] == "";
  }

  /** A trimmed string that starts with two digits (or is one digit) is
      neither radix-prefixed nor signed, so it is read as a decimal literal. */
  lemma StringToNumberOfUnsigned(t: string, x: real)
    requires |t| >= 1 && IsDigit(t[0]) && (|t| >= 2 ==> IsDigit(t[1]) || t[1] == '.')
    requires Trim(t) == t
    requires UnsignedDecimal(t) == Some(Finite(x))
    ensures StringToNumber(t) == Finite(x)
  {
    DigitIsNoPrefix(t[0]);
    assert !HasRadixPrefix(t) by {
      if |t| >= 2 && IsDigit(t[1]) {
        DigitIsNoPrefix(t[1]);
      }
    }
    assert SignAndRest(t) == (false, t);
  }

  /** A string that starts and ends with neither kind of white space is already trimmed. */
  lemma Trimmed(t: string)
    requires |t| >= 1 && !IsSpace(t[0]) && !IsSpace(t[|t| - 1])
    ensures Trim(t) == t
  {
    assert DropSpaces(t) == t;
  }

  /** A digit of any base up to 16 is not white space. */
  lemma DigitIsNoSpace(c: char)
    requires DigitOf(c) < 16
    ensures !IsSpace(c)
  {
  }

  /** A digit is neither a sign nor a radix letter. */
  lemma DigitIsNoPrefix(c: char)
    requires IsDigit(c)
    ensures c != '-' && c != '+' && RadixOf(c) == 0
  {
  }

  /** A run of digits, with no sign or white space around it, is read as its value. */
  lemma StringToNumberOfDigits(d: string)
    requires |d| >= 1 && AllDigits(d)
    ensures StringToNumber(d) == Finite(DigitsValue(d, 10) as real)
  {
    assert IsDigit(d[0]) && IsDigit(d[|d| - 1]) && (|d| >= 2 ==> IsDigit(d[1]));
    Trimmed(d);
    UnsignedDecimalOfDigits(d);
    StringToNumberOfUnsigned(d, DigitsValue(d, 10) as real);
  }

  /** `Number` reads back the decimal rendering of an id. */
  lemma NumberOfDecimal(n: nat)
    ensures ToNumber(Str(Decimal(n))) == Ok(Finite(n as real))
  {
    StringToNumberOfDigits(Decimal(n));
    DigitsValueDecimal(n);
  }

  /** An array holding one id is read as that id: its only element's string is the id's decimal form. */
  lemma ArrayOfOneId(n: nat)
    ensures ToNumber(Arr([Num(n)])) == Ok(Finite(n as real))
  {
    assert JoinTexts([Num(n)]) == Some(Decimal(n));
    StringToNumberOfDigits(Decimal(n));
    DigitsValueDecimal(n);
  }

  /** An array holding one string is read as that string; the empty array, like `""`, is 0. */
  lemma ArrayOfOneText(s: string)
    ensures ToNumber(Arr([Str(s)])) == ToNumber(Str(s))
    ensures ToNumber(Arr([])) == Ok(Finite(0.0))
  {
    assert JoinTexts([Str(s)]) == Some(s);
  }

  /** A trimmed string whose first character cannot start a number is NaN. */
  lemma NonNumericStart(t: string)
    requires |t| >= 1 && !IsSpace(t[0]) && !IsSpace(t[|t| - 1])
    requires !IsDigit(t[0]) && t[0] != '.' && t[0] != '-' && t[0] != '+' && t[0] != 'I'
    ensures StringToNumber(t) == NaN
  {
    Trimmed(t);
    assert SignAndRest(t) == (false, t);
    assert t != "Infinity" by { assert t[0] != "Infinity"[0]; }
  }

  /** An object with an own `toString` property makes `Number` throw, alone or
      inside an array; a plain object is NaN. */
  lemma ObjectConversion(fields: seq<(string, Value)>)
    ensures HasKey(fields, "toString") ==> ToNumber(Obj(fields)).Err? && ToNumber(Arr([Obj(fields)])).Err?
    ensures !HasKey(fields, "toString") ==> ToNumber(Obj(fields)) == Ok(NaN)
  {
    var t := "[object Object]";
    assert t[0] == '[' && t[|t| - 1] == ']';
    assert ElementText(Obj(fields)) == if HasKey(fields, "toString") then None else Some(t);
    assert JoinTexts([Obj(fields)]) == ElementText(Obj(fields));
    NonNumericStart(t);
  }

  /** After `0x`, `0o` or `0b`, digits of that base are read in it. */
  lemma RadixRead(c: char, digits: string)
    requires RadixOf(c) > 0 && |digits| > 0 && AllDigitsIn(digits, RadixOf(c))
    ensures ToNumber(Str(['0', c] + digits)) == Ok(Finite(DigitsValue(digits, RadixOf(c)) as real))
  {
    var t := ['0', c] + digits;
    assert t[|t| - 1] == digits[|digits| - 1];
    assert DigitOf(digits[|digits| - 1]) < RadixOf(c);
    DigitIsNoSpace(digits[|digits| - 1]);
    Trimmed(t);
    assert t[2..] == digits;
    assert StringToNumber(t) == RadixInteger(digits, RadixOf(c));
  }

  /** A sign before a radix prefix leaves no number: the result is NaN. */
  lemma SignedRadixIsNaN(sign: char, c: char, digits: string)
    requires sign == '-' || sign == '+'
    requires RadixOf(c) > 0 && |digits| > 0 && AllDigitsIn(digits, RadixOf(c))
    ensures ToNumber(Str([sign, '0', c] + digits)) == Ok(NaN)
  {
    var t := [sign, '0', c] + digits;
    var rest := ['0', c] + digits;
    assert t[|t| - 1] == digits[|digits| - 1];
    assert DigitOf(digits[|digits| - 1]) < RadixOf(c);
    DigitIsNoSpace(digits[|digits| - 1]);
    Trimmed(t);
    assert t[0] == sign && t[1..] == rest;
    assert SignAndRest(t) == (sign == '-', rest);
    assert DigitPrefix(rest) == ['0'] by {
      assert rest == ['0'] + ([c] + digits);
      assert AllDigits(['0']);
      DigitPrefixOf(['0'], [c] + digits);
    }
    assert rest[1..][0] == c;
    assert FractionOf(rest[1..]) == ("", rest[1..]);
    assert ExponentPart(rest[1..]) == None;
  }

  /** Whole digits, a `.` and fraction digits are read as the whole digits
      followed by the fraction, scaled down by the fraction's length. */
  lemma UnsignedDecimalWithFraction(w: string, f: string)
    requires |w| >= 1 && AllDigits(w) && |f| >= 1 && AllDigits(f)
    ensures UnsignedDecimal(w + "." + f) == Some(Finite(Scaled(DigitsValue(w + f, 10) as real, -|f|)))
  {
    var t := w + "." + f;
    WholeBeforePoint(w, f);
    FractionAfterPoint(f);
    assert ExponentPart("") == Some(0);
    assert DecimalLiteral(t) == Some(Finite(Scaled(DigitsValue(w + f, 10) as real, -|f|)));
    assert IsDigit(t[0]) by { assert t[0] == w[0] && DigitOf(w[0]) < 10; }
  }

  /** The whole digits of `w.f` are `w`, and the `.` and fraction follow them. */
  lemma WholeBeforePoint(w: string, f: string)
    requires AllDigits(w)
    ensures DigitPrefix(w + "." + f) == w && (w + "." + f)[|w|..] == "." + f
  {
    assert w + "." + f == w + ("." + f);
    DigitPrefixOf(w, "." + f);
  }

  /** A `.` followed by digits and nothing else is all fraction. */
  lemma FractionAfterPoint(f: string)
    requires AllDigits(f)
    ensures FractionOf("." + f) == (f, "")
  {
    assert ("." + f)[1..] == f;
    DigitPrefixOf(f, "");
    assert f + "" == f;
  }

  /** Appending a zero digit multiplies the value by ten. */
  lemma AppendZero(d: string)
    requires AllDigits(d)
    ensures AllDigits(d + "0") && DigitsValue(d + "0", 10) == 10 * DigitsValue(d, 10)
  {
    assert (d + "0")[..|d|] == d;
  }

  /** An id's decimal form followed by `.0` is trimmed and starts like a decimal literal. */
  lemma ZeroFractionShape(d: string)
    requires |d| >= 1 && AllDigits(d)
    ensures var t := d + "." + "0"; Trim(t) == t && IsDigit(t[0]) && (IsDigit(t[1]) || t[1] == '.')
  {
    var t := d + "." + "0";
    assert IsDigit(d[0]) by { assert DigitOf(d[0]) < 10; }
    assert t[0] == d[0] && t[|t| - 1] == '0';
    assert IsDigit(t[1]) || t[1] == '.' by {
      if |d| >= 2 {
        assert t[1] == d[1] && DigitOf(d[1]) < 10;
      }
    }
    Trimmed(t);
  }

  /** An id written with a zero fraction, `"<id>.0"`, is still that id. */
  lemma IdWithZeroFraction(n: nat)
    ensures ToNumber(Str(Decimal(n) + ".0")) == Ok(Finite(n as real))
  {
    var d := Decimal(n);
    var t := d + "." + "0";
    assert d + ".0" == t;
    ZeroFractionShape(d);
    UnsignedDecimalWithFraction(d, "0");
    AppendZero(d);
    DigitsValueDecimal(n);
    assert Scaled(10.0 * n as real, -1) == n as real;
    StringToNumberOfUnsigned(t, n as real);
  }
}
