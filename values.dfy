/** Scalar values as they travel between the database, the widgets and the SQL
    parameters, and the Python conversions the GUI applies to them: `str()`,
    `int()`, `str.strip()` and the substring test `in`. */
module Values {

  datatype Option<T> = None | Some(value: T)

  /** A scalar as the MySQL driver hands it over or as a form produces it:
      SQL NULL (Python None), a string, an integer, or a number of another
      kind (DECIMAL, FLOAT), which the model keeps opaque and carries
      together with the text `str()` prints for it. */
  datatype Value = Null | Str(s: string) | Int(i: int) | Num(text: string)

  /** A Python dict from column names to values: its keys in insertion order
      and the value of each key. */
  datatype Dict = Dict(keys: seq<string>, entries: map<string, Value>)
  {
    ghost predicate Valid()
    {
      && (forall i, j :: 0 <= i < j < |keys| ==> keys[i] != keys[j])
      && (forall k :: k in entries <==> k in keys)
    }

    /** `d.get(k)`: the value stored under `k`, if any. */
    function Get(k: string): (r: Option<Value>)
      ensures r.Some? <==> k in entries
      ensures r.Some? ==> r.value == entries[k]
    {
      if k in entries then Some(entries[k]) else None
    }
  }

  /** A row of a query result fetched with a dictionary cursor. */
  type Row = d: Dict | d.Valid() witness Dict([], map[])

  const EmptyRow: Row := Dict([], map[])

  // ---------- decimal notation ----------

  predicate IsDigit(c: char)
  {
    '0' <= c <= '9'
  }

  predicate AllDigits(s: string)
  {
    forall i :: 0 <= i < |s| ==> IsDigit(s[i])
  }

  function DigitChar(d: nat): (c: char)
    requires d < 10
    ensures IsDigit(c)
  {
    ('0' as int + d) as char
  }

  function DigitValue(c: char): nat
    requires IsDigit(c)
  {
    c as int - '0' as int
  }

  /** The decimal digits of `n`, most significant first, without leading zeros. */
  function NatDecimal(n: nat): (r: string)
    ensures |r| >= 1 && AllDigits(r)
    ensures n >= 10 ==> r[0] != '0'
    decreases n
  {
    if n < 10 then [DigitChar(n)] else NatDecimal(n / 10) + [DigitChar(n % 10)]
  }

  /** Python `str(i)` for an int. */
  function Decimal(i: int): (r: string)
    ensures |r| >= 1
    ensures (i < 0) <==> (r[0] == '-')
  {
    if i < 0 then "-" + NatDecimal(-i) else NatDecimal(i)
  }

  /** The number written by a non-empty run of decimal digits. */
  function DigitsValue(s: string): nat
    requires AllDigits(s)
    decreases |s|
  {
    if s == [] then 0 else DigitsValue(s[..|s| - 1]) * 10 + DigitValue(s[|s| - 1])
  }

  function ParseNat(s: string): Option<nat>
  {
    if s != [] && AllDigits(s) then Some(DigitsValue(s)) else None
  }

  /** Python `int(s)` on an already stripped string: an optional sign and at
      least one decimal digit; None where Python raises ValueError. */
  function ParseInt(s: string): (r: Option<int>)
    ensures r.Some? ==> s != []
  {
    if |s| > 0 && (s[0] == '-' || s[0] == '+') then
      match ParseNat(s[1..])
      case None => None
      case Some(n) => Some(if s[0] == '-' then -(n as int) else n as int)
    else
      match ParseNat(s)
      case None => None
      case Some(n) => Some(n)
  }

  lemma {:induction false} NatDecimalValue(n: nat)
    ensures DigitsValue(NatDecimal(n)) == n
    decreases n
  {
    if n >= 10 {
      NatDecimalValue(n / 10);
      var s := NatDecimal(n);
      assert s[..|s| - 1] == NatDecimal(n / 10);
      assert s[|s| - 1] == DigitChar(n % 10);
    }
  }

  /** `int(str(i)) == i`. */
  lemma DecimalRoundTrip(i: int)
    ensures ParseInt(Decimal(i)) == Some(i)
  {
    if i < 0 {
      NatDecimalValue(-i);
      assert Decimal(i)[1..] == NatDecimal(-i);
    } else {
      NatDecimalValue(i);
    }
  }

  // ---------- str() ----------

  /** Python `str(v)` (also what an f-string prints for `v`). */
  function Text(v: Value): (r: string)
    ensures v.Str? ==> r == v.s
    ensures v.Int? ==> ParseInt(r) == Some(v.i)
    ensures v.Null? ==> r == "None"
  {
    match v
    case Null => "None"
    case Str(s) => s
    case Int(i) => DecimalRoundTrip(i); Decimal(i)
    case Num(t) => t
  }

  /** `"" if v is None else str(v)`: how every grid in the GUI shows a value. */
  function Display(v: Value): (r: string)
    ensures v.Null? ==> r == ""
    ensures !v.Null? ==> r == Text(v)
    ensures r == "" ==> v.Null? || v == Str("") || v == Num("")
  {
    if v.Null? then "" else Text(v)
  }

  // ---------- str.strip() ----------

  /** The characters Python's `str.isspace()` accepts, which `str.strip()` removes. */
  predicate IsSpace(c: char)
  {
    || c == ' ' || c == '\t' || c == '\n' || c == '\r'
    || c == '\U{0B}' || c == '\U{0C}'
    || ('\U{1C}' <= c <= '\U{1F}')
    || c == '\U{85}' || c == '\U{A0}' || c == '\U{1680}'
    || ('\U{2000}' <= c <= '\U{200A}')
    || c == '\U{2028}' || c == '\U{2029}' || c == '\U{202F}'
    || c == '\U{205F}' || c == '\U{3000}'
  }

  predicate AllSpace(s: string)
  {
    forall i :: 0 <= i < |s| ==> IsSpace(s[i])
  }

  function TrimStart(s: string): string
    decreases |s|
  {
    if s != [] && IsSpace(s[0]) then TrimStart(s[1..]) else s
  }

  function TrimEnd(s: string): string
    decreases |s|
  {
    if s != [] && IsSpace(s[|s| - 1]) then TrimEnd(s[..|s| - 1]) else s
  }

  /** Python `s.strip()`: `s` without its leading and trailing whitespace. */
  function Strip(s: string): string
  {
    TrimEnd(TrimStart(s))
  }

  /** `lstrip` keeps a suffix and drops only whitespace in front of it. */
  lemma {:induction false} TrimStartShape(s: string)
    ensures var r := TrimStart(s);
            && |r| <= |s| && r == s[|s| - |r|..]
            && AllSpace(s[..|s| - |r|])
            && (r == [] || !IsSpace(r[0]))
    decreases |s|
  {
    if s != [] && IsSpace(s[0]) {
      TrimStartShape(s[1..]);
      var r := TrimStart(s[1..]);
      var k := |s| - |r|;
      assert s[1..][..|s[1..]| - |r|] == s[1..k];
      assert s[k..] == s[1..][|s[1..]| - |r|..];
      forall j | 0 <= j < k ensures IsSpace(s[..k][j]) {
        if j > 0 {
          assert s[..k][j] == s[1..k][j - 1];
        }
      }
    } else {
      assert s[..0] == [];
    }
  }

  /** `rstrip` keeps a prefix and drops only whitespace after it. */
  lemma {:induction false} TrimEndShape(s: string)
    ensures var r := TrimEnd(s);
            && |r| <= |s| && r == s[..|r|]
            && AllSpace(s[|r|..])
            && (r == [] || !IsSpace(r[|r| - 1]))
    decreases |s|
  {
    if s != [] && IsSpace(s[|s| - 1]) {
      var n := |s| - 1;
      TrimEndShape(s[..n]);
      var r := TrimEnd(s[..n]);
      assert s[..n][..|r|] == s[..|r|];
      assert s[..n][|r|..] == s[|r|..n];
      forall j | 0 <= j < |s| - |r| ensures IsSpace(s[|r|..][j]) {
        if j < n - |r| {
          assert s[|r|..][j] == s[|r|..n][j];
        }
      }
    } else {
      assert s[|s|..] == [];
    }
  }

  /** What `strip` removes is whitespace at both ends, and what it keeps
      neither starts nor ends with whitespace. */
  lemma StripShape(s: string)
    ensures var r := Strip(s);
            && (exists i :: 0 <= i <= |s| - |r| && s[i..i + |r|] == r
                            && AllSpace(s[..i]) && AllSpace(s[i + |r|..]))
            && (r == [] || (!IsSpace(r[0]) && !IsSpace(r[|r| - 1])))
  {
    var t := TrimStart(s);
    TrimStartShape(s);
    var r := TrimEnd(t);
    TrimEndShape(t);
    var i := |s| - |t|;
    assert s[i..i + |r|] == r;
    assert s[i + |r|..] == t[|r|..];
    if r != [] {
      assert r[0] == t[0];
    }
  }

  lemma StripEmptyIff(s: string)
    ensures Strip(s) == [] <==> AllSpace(s)
  {
    var t := TrimStart(s);
    TrimStartShape(s);
    TrimEndShape(t);
    var k := |s| - |t|;
    assert s == s[..k] + t;
    if Strip(s) == [] {
      assert t[0..] == t;
      assert t == [];
      forall j | 0 <= j < |s| ensures IsSpace(s[j]) {
        assert s[..k][j] == s[j];
      }
    } else if t != [] {
      assert t[0] == s[k];
    }
  }

  /** Stripping twice is stripping once. */
  lemma StripIdempotent(s: string)
    ensures Strip(Strip(s)) == Strip(s)
  {
    StripShape(s);
    var r := Strip(s);
    if r != [] {
      assert TrimStart(r) == r;
    }
  }

  // ---------- int() ----------

  /** The position of the first `.` in `t`, or `|t|` when there is none. */
  function DotAt(t: string): (k: nat)
    ensures k <= |t| && (k < |t| ==> t[k] == '.')
    ensures forall j :: 0 <= j < k ==> t[j] != '.'
    decreases |t|
  {
    if t == [] || t[0] == '.' then 0 else 1 + DotAt(t[1..])
  }

  /** `int(x)` for a DECIMAL or float that prints as `t` in positional
      notation: it truncates toward zero, that is, it drops the fraction
      digits. Any other text (exponent notation, `inf`, `nan`) fails. */
  function NumInt(t: string): Option<int>
  {
    var k := DotAt(t);
    if k == |t| then ParseInt(t)
    else if AllDigits(t[k + 1..]) then ParseInt(t[..k])
    else None
  }

  /** Python `int(v)`: None where Python raises (int(None), a string that is
      no integer, a number this model does not read). */
  function IntOf(v: Value): (r: Option<int>)
    ensures v.Int? ==> r == Some(v.i)
    ensures v.Null? ==> r.None?
  {
    match v
    case Null => None
    case Int(i) => Some(i)
    case Str(s) => ParseInt(Strip(s))
    case Num(t) => NumInt(t)
  }

  /** Every character of `str(i)` is a digit or the sign. */
  lemma DecimalChars(i: int)
    ensures forall k :: 0 <= k < |Decimal(i)| ==> IsDigit(Decimal(i)[k]) || Decimal(i)[k] == '-'
  {
    var d := NatDecimal(if i < 0 then -i else i);
    if i < 0 {
      assert Decimal(i) == "-" + d;
      assert forall k :: 1 <= k < |Decimal(i)| ==> Decimal(i)[k] == d[k - 1];
    }
  }

  /** `int()` of a number truncates it: a number whose integer digits print as
      `str(i)` converts to `i`, whatever its fraction digits, and an integral
      DECIMAL such as `5.00` converts to `5`. */
  lemma NumTruncates(i: int, frac: string)
    requires AllDigits(frac)
    ensures IntOf(Num(Decimal(i))) == Some(i)
    ensures IntOf(Num(Decimal(i) + "." + frac)) == Some(i)
  {
    DecimalRoundTrip(i);
    DecimalChars(i);
    var d := Decimal(i);
    var t := d + "." + frac;
    assert DotAt(d) == |d|;
    assert forall j :: 0 <= j < |d| ==> t[j] == d[j];
    assert t[|d|] == '.';
    assert DotAt(t) == |d|;
    assert t[..|d|] == d && t[|d| + 1..] == frac;
  }

  /** Python `sep.join(parts)`. */
  function Join(sep: string, parts: seq<string>): string
    decreases |parts|
  {
    if parts == [] then ""
    else if |parts| == 1 then parts[0]
    else parts[0] + sep + Join(sep, parts[1..])
  }

  // ---------- the substring test ----------

  /** `sub` occurs in `s` starting at index `i`. */
  predicate OccursAt(s: string, sub: string, i: int)
  {
    0 <= i <= |s| - |sub| && s[i..i + |sub|] == sub
  }

  /** Python `sub in s` for two strings. */
  function Contains(s: string, sub: string): (b: bool)
    ensures b <==> exists i :: OccursAt(s, sub, i)
    decreases |s|
  {
    if |s| < |sub| then false
    else if s[..|sub|] == sub then assert OccursAt(s, sub, 0); true
    else
      var b := Contains(s[1..], sub);
      assert b ==> exists i :: OccursAt(s, sub, i) by {
        if b {
          var j :| OccursAt(s[1..], sub, j);
          assert s[j + 1..j + 1 + |sub|] == s[1..][j..j + |sub|];
          assert OccursAt(s, sub, j + 1);
        }
      }
      assert (exists i :: OccursAt(s, sub, i)) ==> b by {
        if i :| OccursAt(s, sub, i) {
          assert i != 0;
          assert s[1..][i - 1..i - 1 + |sub|] == s[i..i + |sub|];
          assert OccursAt(s[1..], sub, i - 1);
        }
      }
      b
  }
}
