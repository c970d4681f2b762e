/** Phone numbers as the guest import writes them. */
module PhoneNumbers {
  import Text

  predicate IsDigit(c: char) {
    '0' <= c <= '9'
  }

  predicate AllDigits(s: string) {
    forall k :: 0 <= k < |s| ==> IsDigit(s[k])
  }

  /** The ASCII digits of a string, in order. */
  function Digits(s: string): (d: string)
    ensures AllDigits(d)
  {
    if s == "" then ""
    else Digits(s[..|s| - 1]) + if IsDigit(s[|s| - 1]) then [s[|s| - 1]] else ""
  }

  predicate StartsWithPlus(value: string) {
    var v := Text.Trim(value); v != "" && v[0] == '+'
  }

  function Normalize(value: string): string {
    var v := Text.Trim(value);
    var d := Digits(v);
    if d == "" then v
    else if v[0] == '+' then "+" + d
    else if "00" <= d then "+" + d[2..]
    else if d[0] == '0' then "+62" + d[1..]
    else "+" + d
  }

  /** The import's normalisation, with its digit-collecting loop. */
  method NormalizeImportPhone(input: string) returns (phone: string)
    ensures phone == Normalize(input)
  {
    hide Text.Trim;
    var value := Text.Trim(input);
    if value == "" {
      return "";
    }
    var cleaned := "";
    for n := 0 to |value|
      invariant cleaned == Digits(value[..n])
    {
      assert value[..n + 1][..n] == value[..n];
      if '0' <= value[n] <= '9' {
        cleaned := cleaned + [value[n]];
      }
    }
    assert value[..|value|] == value;
    hide Digits;
    if cleaned == "" {
      return value;
    }
    if value[0] == '+' {
      return "+" + cleaned;
    }
    if "00" <= cleaned {
      return "+" + cleaned[2..];
    }
    if "0" <= cleaned {
      assert cleaned[0] == '0';
      return "+62" + cleaned[1..];
    }
    return "+" + cleaned;
  }

  /** The validity check: a length, a plus sign and digits only. */
  method IsValidE164(phone: string) returns (ok: bool)
    ensures ok <==> 8 <= |phone| <= 15 && phone[0] == '+' && AllDigits(phone[1..])
  {
    if |phone| < 8 || |phone| > 15 {
      return false;
    }
    if phone[0] != '+' {
      return false;
    }
    for i := 1 to |phone|
      invariant forall k :: 1 <= k < i ==> IsDigit(phone[k])
    {
      if phone[i] < '0' || phone[i] > '9' {
        assert phone[1..][i - 1] == phone[i];
        return false;
      }
    }
    return true;
  }

  predicate Valid(phone: string) {
    8 <= |phone| <= 15 && phone[0] == '+' && AllDigits(phone[1..])
  }

  // --- Properties ---------------------------------------------------------------------------------

  lemma {:induction false} DigitsConcat(a: string, b: string)
    ensures Digits(a + b) == Digits(a) + Digits(b)
  {
    if b == "" {
      assert a + b == a;
    } else {
      var last := |b| - 1;
      var init, end := b[..last], b[last];
      assert b == init + [end] && a + b == (a + init) + [end];
      DigitsStep(init, end);
      DigitsStep(a + init, end);
      hide Digits;
      DigitsConcat(a, init);
    }
  }

  lemma DigitsStep(s: string, c: char)
    ensures Digits(s + [c]) == Digits(s) + if IsDigit(c) then [c] else ""
  {
    assert (s + [c])[..|s|] == s;
  }

  lemma {:induction false} DigitsOfDigits(d: string)
    requires AllDigits(d)
    ensures Digits(d) == d
  {
    if d != "" {
      DigitsOfDigits(d[..|d| - 1]);
      assert d == d[..|d| - 1] + [d[|d| - 1]];
    }
  }

  lemma DigitsOfOne(c: char)
    ensures Digits([c]) == if IsDigit(c) then [c] else ""
  {
    assert [c][..0] == "";
    assert Digits("") == "";
  }

  lemma {:induction false} DigitsOfTrimLeft(s: string)
    ensures Digits(Text.TrimLeft(s)) == Digits(s)
  {
    if s != "" && Text.IsSpace(s[0]) {
      DigitsOfTrimLeft(s[1..]);
      assert s == [s[0]] + s[1..];
      DigitsConcat([s[0]], s[1..]);
      DigitsOfOne(s[0]);
    }
  }

  lemma {:induction false} DigitsOfTrimRight(s: string)
    ensures Digits(Text.TrimRight(s)) == Digits(s)
  {
    if s != "" && Text.IsSpace(s[|s| - 1]) {
      DigitsOfTrimRight(s[..|s| - 1]);
    }
  }

  lemma DigitsOfTrim(s: string)
    ensures Digits(Text.Trim(s)) == Digits(s)
  {
    DigitsOfTrimLeft(s);
    DigitsOfTrimRight(Text.TrimLeft(s));
  }

  lemma PlusDigitsIsFixed(d: string)
    requires AllDigits(d)
    ensures Normalize("+" + d) == "+" + d
  {
    var v := "+" + d;
    Text.TrimOfTrimmed(v);
    PlusDigitsHasDigits(d);
    hide Digits, Text.Trim;
  }

  lemma PlusAndDigits(v: string, d: string)
    requires v != "" && d != "" && AllDigits(d)
    ensures var phone := if v[0] == '+' then "+" + d else if "00" <= d then "+" + d[2..]
                         else if d[0] == '0' then "+62" + d[1..] else "+" + d;
            phone[0] == '+' && AllDigits(phone[1..])
  {
    if v[0] == '+' {
      assert ("+" + d)[1..] == d;
    } else if "00" <= d {
      assert ("+" + d[2..])[1..] == d[2..];
    } else if d[0] == '0' {
      assert ("+62" + d[1..])[1..] == "62" + d[1..];
    } else {
      assert ("+" + d)[1..] == d;
    }
  }

  lemma PlusDigitsHasDigits(d: string)
    requires AllDigits(d)
    ensures Digits("+" + d) == d
  {
    DigitsConcat("+", d);
    DigitsOfOne('+');
    DigitsOfDigits(d);
  }

  lemma ValidHasDigits(phone: string)
    requires Valid(phone)
    ensures Digits(phone) != ""
  {
    assert phone == "+" + phone[1..];
    PlusDigitsHasDigits(phone[1..]);
  }

  /** For an input with a digit the output is a plus sign and digits, so validity is a matter of length. */
  lemma NormalizedShape(value: string)
    ensures var phone := Normalize(value);
            if Digits(value) != ""
            then phone != "" && phone[0] == '+' && AllDigits(phone[1..]) && (Valid(phone) <==> 8 <= |phone| <= 15)
            else phone == Text.Trim(value) && !Valid(phone)
  {
    var v := Text.Trim(value);
    DigitsOfTrim(value);
    var d := Digits(v);
    var phone := Normalize(value);
    assert v == "" ==> d == "";
    hide Digits, Text.Trim;
    if d != "" {
      PlusAndDigits(v, d);
    } else if Valid(phone) {
      ValidHasDigits(phone);
      assert false;
    }
  }

  lemma NormalizeIsIdempotent(value: string)
    ensures Normalize(Normalize(value)) == Normalize(value)
  {
    NormalizedShape(value);
    var phone := Normalize(value);
    if Digits(value) != "" {
      assert phone == "+" + phone[1..];
      PlusDigitsIsFixed(phone[1..]);
    } else {
      DigitsOfTrim(value);
      Text.TrimIsIdempotent(value);
    }
  }

  /** The spellings of an Indonesian number, with any separators between the digits. */
  predicate Spells(value: string, d: string) {
    if StartsWithPlus(value) then Digits(value) == "62" + d
    else Digits(value) == "0" + d || Digits(value) == "62" + d || Digits(value) == "0062" + d
  }

  /** Exactly those spellings normalise to +62 followed by the subscriber digits. */
  lemma IndonesianSpellingsAgree(value: string, d: string)
    requires AllDigits(d) && (d == "" || d[0] != '0')
    ensures Normalize(value) == "+62" + d <==> Spells(value, d)
  {
    DigitsOfTrim(value);
    var v := Text.Trim(value);
    var ds := Digits(v);
    assert v == "" ==> ds == "";
    hide Digits, Text.Trim;
    if ds == "" {
      PlusDigitsHasDigits("62" + d);
      assert "+62" + d == "+" + ("62" + d);
    } else if v[0] == '+' {
      SamePlus(ds, d);
    } else {
      LeadingZeros(ds, d);
    }
  }

  lemma SamePlus(ds: string, d: string)
    ensures "+" + ds == "+62" + d <==> ds == "62" + d
  {
    assert ("+" + ds)[1..] == ds && ("+62" + d)[1..] == "62" + d;
  }

  lemma LeadingZeros(ds: string, d: string)
    requires ds != "" && AllDigits(ds) && (d == "" || d[0] != '0')
    ensures var phone := if "00" <= ds then "+" + ds[2..] else if ds[0] == '0' then "+62" + ds[1..] else "+" + ds;
            phone == "+62" + d <==> ds == "0" + d || ds == "62" + d || ds == "0062" + d
  {
    var target := "+62" + d;
    assert target[1..] == "62" + d && target[3..] == d;
    if "00" <= ds {
      assert ds == "00" + ds[2..];
      assert ("+" + ds[2..])[1..] == ds[2..];
      assert ds == "0062" + d ==> ds[2..] == "62" + d;
      assert ds[2..] == "62" + d ==> ds == "0062" + d by { assert "0062" + d == "00" + ("62" + d); }
      assert ds[1] == '0';
    } else if ds[0] == '0' {
      assert ds == "0" + ds[1..];
      assert ("+62" + ds[1..])[3..] == ds[1..];
      assert ("0062" + d)[..2] == "00";
    } else {
      assert ("+" + ds)[1..] == ds;
    }
  }

  /** The four ways to write a number, over its digits alone. */
  lemma PrefixesAreExact(x: string)
    requires AllDigits(x) && x != ""
    ensures Normalize("+" + x) == "+" + x
    ensures Normalize("00" + x) == "+" + x
    ensures x[0] != '0' ==> Normalize("0" + x) == "+62" + x && Normalize(x) == "+" + x
  {
    hide Normalize;
    PlusDigitsIsFixed(x);
    DoubleZero(x);
    if x[0] != '0' {
      SingleZero(x);
      PlainDigits(x);
    }
  }

  lemma DoubleZero(x: string)
    requires AllDigits(x)
    ensures Normalize("00" + x) == "+" + x
  {
    hide Normalize;
    var d := "00" + x;
    assert d[2..] == x && "00" <= d;
    PlainDigits(d);
  }

  lemma SingleZero(x: string)
    requires AllDigits(x) && x != "" && x[0] != '0'
    ensures Normalize("0" + x) == "+62" + x
  {
    hide Normalize;
    var d := "0" + x;
    assert d[1..] == x && d[1] == x[0] && d[0] == '0';
    PlainDigits(d);
  }

  /** A number written in digits only. */
  lemma PlainDigits(d: string)
    requires AllDigits(d) && d != ""
    ensures Normalize(d) == if "00" <= d then "+" + d[2..] else if d[0] == '0' then "+62" + d[1..] else "+" + d
  {
    hide Digits, Text.Trim;
    assert IsDigit(d[0]) && IsDigit(d[|d| - 1]);
    DigitsOfDigits(d);
    Text.TrimOfTrimmed(d);
  }

  /** Nothing but the digits and a leading plus sign matters. */
  lemma SeparatorsDoNotMatter(v: string, w: string)
    requires Digits(v) == Digits(w) != "" && (StartsWithPlus(v) <==> StartsWithPlus(w))
    ensures Normalize(v) == Normalize(w)
  {
    DigitsOfTrim(v);
    DigitsOfTrim(w);
    assert Digits("") == "";
    hide Digits, Text.Trim;
  }
}
