/**
 * Number.parseInt(text, 10), the function the task routes use to read the
 * `:id` path segment (ECMAScript, section 19.2.5 "parseInt ( string, radix )").
 * It skips leading whitespace, takes one optional sign and reads the longest
 * run of decimal digits; without a digit the result is NaN, here None.
 */
module IdParsing {
  import opened Wrappers
  import opened Text

  /** The longest prefix of s made of decimal digits. */
  function DigitPrefix(s: string): (r: string)
    ensures |r| <= |s| && r == s[..|r|]
    ensures forall i :: 0 <= i < |r| ==> IsDigit(r[i])
    ensures |r| == |s| || !IsDigit(s[|r|])
  {
    if s != [] && IsDigit(s[0]) then [s[0]] + DigitPrefix(s[1..]) else []
  }

  /** The value of a string of decimal digits, most significant first. */
  function DigitsValue(ds: string): nat
    requires forall i :: 0 <= i < |ds| ==> IsDigit(ds[i])
  {
    if ds == [] then 0 else DigitsValue(ds[..|ds| - 1]) * 10 + DigitValue(ds[|ds| - 1])
  }

  /** The text ParseInt reads digits from: s without its leading whitespace
      and without one leading sign. */
  function Unsigned(s: string): string {
    var t := TrimStart(s);
    if t != [] && (t[0] == '+' || t[0] == '-') then t[1..] else t
  }

  predicate IsNegative(s: string) {
    var t := TrimStart(s);
    t != [] && t[0] == '-'
  }

  function ParseInt(s: string): (r: Option<int>)
    ensures r.None? <==> DigitPrefix(Unsigned(s)) == []
    ensures r.Some? && !IsNegative(s) ==> r.value >= 0
  {
    var digits := DigitPrefix(Unsigned(s));
    var magnitude: int := if digits == [] then 0 else DigitsValue(digits);
    if digits == [] then None
    else if IsNegative(s) then Some(-magnitude)
    else Some(magnitude)
  }

  /** Blank text, and text whose first character is neither whitespace, a
      sign nor a digit, are NaN. */
  lemma ParseIntNaN(s: string)
    requires AllWhiteSpace(s) || (!IsWhiteSpace(s[0]) && !IsDigit(s[0]) && s[0] != '+' && s[0] != '-')
    ensures ParseInt(s).None?
  {
    if !AllWhiteSpace(s) {
      assert TrimStart(s) == s;
    } else {
      TrimStartOfBlank(s);
    }
  }

  lemma {:induction false} DigitsValueOfNatToString(n: nat)
    ensures DigitsValue(NatToString(n)) == n
  {
    var s := NatToString(n);
    if n >= 10 {
      DigitsValueOfNatToString(n / 10);
      assert s[..|s| - 1] == NatToString(n / 10);
    }
  }

  lemma {:induction false} DigitPrefixOfDigits(s: string, rest: string)
    requires forall i :: 0 <= i < |s| ==> IsDigit(s[i])
    requires rest == [] || !IsDigit(rest[0])
    ensures DigitPrefix(s + rest) == s
  {
    if s != [] {
      assert (s + rest)[1..] == s[1..] + rest;
      DigitPrefixOfDigits(s[1..], rest);
    } else {
      assert s + rest == rest;
    }
  }

  /** Number.parseInt reads back what Number-to-String printed, and ignores
      anything after the digits that does not start with a digit
      (so "12abc" reads as 12). */
  lemma ParseIntOfPrinted(n: int, rest: string)
    requires rest == [] || !IsDigit(rest[0])
    ensures ParseInt(IntToString(n) + rest) == Some(n)
  {
    var m: nat := if n < 0 then -n else n;
    var digits := NatToString(m);
    var printed := IntToString(n);
    var s := printed + rest;
    assert s[0] == printed[0];
    assert !IsWhiteSpace(s[0]);
    assert TrimStart(s) == s;
    if n < 0 {
      assert printed == "-" + digits;
      assert s == "-" + (digits + rest);
      assert s[1..] == digits + rest;
      assert IsNegative(s);
    } else {
      assert printed == digits;
      assert s == digits + rest;
      assert IsDigit(s[0]);
      assert !IsNegative(s);
    }
    assert Unsigned(s) == digits + rest;
    DigitPrefixOfDigits(digits, rest);
    DigitsValueOfNatToString(m);
  }

  lemma {:induction false} TrimStartSkipsWhiteSpace(w: string, s: string)
    requires AllWhiteSpace(w)
    ensures TrimStart(w + s) == TrimStart(s)
  {
    if w != [] {
      assert (w + s)[0] == w[0];
      assert (w + s)[1..] == w[1..] + s;
      TrimStartSkipsWhiteSpace(w[1..], s);
    } else {
      assert w + s == s;
    }
  }

  /** Leading whitespace does not change what parseInt reads. */
  lemma ParseIntSkipsWhiteSpace(w: string, s: string)
    requires AllWhiteSpace(w)
    ensures ParseInt(w + s) == ParseInt(s)
  {
    TrimStartSkipsWhiteSpace(w, s);
  }

  /** A leading zero does not change the value of a digit string. */
  lemma {:induction false} DigitsValueLeadingZero(ds: string)
    requires forall i :: 0 <= i < |ds| ==> IsDigit(ds[i])
    ensures DigitsValue("0" + ds) == DigitsValue(ds)
  {
    var z := "0" + ds;
    if ds == [] {
      assert z[..|z| - 1] == [];
    } else {
      assert z[..|z| - 1] == "0" + ds[..|ds| - 1];
      assert z[|z| - 1] == ds[|ds| - 1];
      DigitsValueLeadingZero(ds[..|ds| - 1]);
    }
  }

  /** What parseInt sees of text that starts with one optional sign and
      then a digit. */
  lemma {:induction false} SignedDigits(sign: string, ds: string, rest: string)
    requires sign == "" || sign == "+" || sign == "-"
    requires ds != [] && IsDigit(ds[0])
    ensures Unsigned(sign + (ds + rest)) == ds + rest
    ensures IsNegative(sign + (ds + rest)) <==> sign == "-"
  {
    var t := sign + (ds + rest);
    if sign == "" {
      assert t == ds + rest;
      assert t[0] == ds[0];
    } else {
      assert t[0] == sign[0];
      assert t[1..] == ds + rest;
    }
    assert TrimStart(t) == t;
  }

  /** The value of every id parseInt accepts: leading whitespace, one
      optional sign, a run of digits (leading zeros included) and then
      anything not starting with a digit give the signed value of the
      digits. */
  lemma ParseIntValue(w: string, sign: string, ds: string, rest: string)
    requires AllWhiteSpace(w)
    requires sign == "" || sign == "+" || sign == "-"
    requires ds != [] && forall i :: 0 <= i < |ds| ==> IsDigit(ds[i])
    requires rest == [] || !IsDigit(rest[0])
    ensures ParseInt(w + sign + ds + rest)
         == Some(if sign == "-" then -(DigitsValue(ds) as int) else DigitsValue(ds) as int)
  {
    Regroup(w, sign, ds, rest);
    ParseIntSkipsWhiteSpace(w, sign + (ds + rest));
    ParseIntOfSigned(sign, ds, rest);
  }

  lemma Regroup(a: string, b: string, c: string, d: string)
    ensures a + b + c + d == a + (b + (c + d))
  {
  }

  lemma ParseIntOfSigned(sign: string, ds: string, rest: string)
    requires sign == "" || sign == "+" || sign == "-"
    requires ds != [] && forall i :: 0 <= i < |ds| ==> IsDigit(ds[i])
    requires rest == [] || !IsDigit(rest[0])
    ensures ParseInt(sign + (ds + rest))
         == Some(if sign == "-" then -(DigitsValue(ds) as int) else DigitsValue(ds) as int)
  {
    SignedDigits(sign, ds, rest);
    ParseIntOfUnsigned(sign + (ds + rest), ds, rest);
  }

  /** parseInt's value once the sign and the whitespace are stripped. */
  lemma ParseIntOfUnsigned(s: string, ds: string, rest: string)
    requires ds != [] && forall i :: 0 <= i < |ds| ==> IsDigit(ds[i])
    requires rest == [] || !IsDigit(rest[0])
    requires Unsigned(s) == ds + rest
    ensures ParseInt(s) == Some(if IsNegative(s) then -(DigitsValue(ds) as int) else DigitsValue(ds) as int)
  {
    DigitPrefixOfDigits(ds, rest);
    ParseIntOfDigitPrefix(s, ds);
  }

  lemma ParseIntOfDigitPrefix(s: string, ds: string)
    requires ds != [] && forall i :: 0 <= i < |ds| ==> IsDigit(ds[i])
    requires DigitPrefix(Unsigned(s)) == ds
    ensures ParseInt(s) == Some(if IsNegative(s) then -(DigitsValue(ds) as int) else DigitsValue(ds) as int)
  {
  }

  /** A zero in front of the digits, after any whitespace and sign, does
      not change the id: "07" reads as "7" and "-07" as "-7". */
  lemma ParseIntLeadingZero(w: string, sign: string, ds: string, rest: string)
    requires AllWhiteSpace(w)
    requires sign == "" || sign == "+" || sign == "-"
    requires ds != [] && forall i :: 0 <= i < |ds| ==> IsDigit(ds[i])
    requires rest == [] || !IsDigit(rest[0])
    ensures ParseInt(w + sign + ("0" + ds) + rest) == ParseInt(w + sign + ds + rest)
  {
    var zds := "0" + ds;
    assert forall i :: 0 <= i < |zds| ==> IsDigit(zds[i]) by {
      forall i | 0 <= i < |zds| ensures IsDigit(zds[i]) {
        if i > 0 { assert zds[i] == ds[i - 1]; }
      }
    }
    ParseIntValue(w, sign, zds, rest);
    ParseIntValue(w, sign, ds, rest);
    DigitsValueLeadingZero(ds);
  }

  /** Ids written with leading whitespace, a plus sign or leading zeros
      name the same task. */
  lemma ParseIntOfSpacedId()
    ensures ParseInt(" 12") == Some(12)
  {
    assert " " + "" + "12" + "" == " 12";
    assert AllWhiteSpace(" ") by { assert IsWhiteSpace(' '); }
    ParseIntValue(" ", "", "12", "");
    assert DigitsValue("12") == 12 by { assert "12"[..1] == "1"; }
  }

  lemma ParseIntOfPlusId()
    ensures ParseInt("+12") == Some(12)
  {
    assert "" + "+" + "12" + "" == "+12";
    ParseIntValue("", "+", "12", "");
    assert DigitsValue("12") == 12 by { assert "12"[..1] == "1"; }
  }

  lemma ParseIntOfZeroPaddedId()
    ensures ParseInt("007") == Some(7)
  {
    Unpadded("007");
    ParseIntValue("", "", "007", "");
    ZeroPaddedSeven();
  }

  lemma Unpadded(x: string)
    ensures "" + "" + x + "" == x
  {
  }

  lemma ZeroPaddedSeven()
    ensures DigitsValue("007") == 7
  {
    assert "007" == "0" + "07" && "07" == "0" + "7";
    DigitsValueLeadingZero("07");
    DigitsValueLeadingZero("7");
    assert DigitsValue("7") == 7 by { assert "7"[..0] == ""; }
  }

  /** The round trip between printing and parsing an id. */
  lemma ParseIntRoundTrip(n: int)
    ensures ParseInt(IntToString(n)) == Some(n)
  {
    ParseIntOfPrinted(n, "");
    assert IntToString(n) + "" == IntToString(n);
  }
}
