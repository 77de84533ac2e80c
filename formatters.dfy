/** The per-field string formatters of the order parser: zip codes, free
    text (cities), phone numbers, the SKU character check and the (unused)
    SKU cleaner. All of them are pure functions of one cell. */
module Formatters {
  import opened Common
  import opened Ascii

  // ---------------------------------------------------------------------
  // Zip codes

  function Zeros(n: nat): (r: string)
    ensures |r| == n && forall i :: 0 <= i < n ==> r[i] == '0'
  {
    seq(n, _ => '0')
  }

  predicate Signed(s: string)
  {
    |s| > 0 && (s[0] == '+' || s[0] == '-')
  }

  /** Python's `str.zfill(width)`: zeros go after a leading sign. */
  function ZeroFill(s: string, width: nat): (r: string)
    ensures |r| == if |s| >= width then |s| else width
    ensures |s| >= width ==> r == s
    ensures !Signed(s) ==> EndsWith(r, s) && forall i :: 0 <= i < |r| - |s| ==> r[i] == '0'
    ensures Signed(s) ==> r[0] == s[0] && EndsWith(r, s[1..]) && forall i :: 1 <= i <= |r| - |s| ==> r[i] == '0'
  {
    if |s| >= width then s
    else if Signed(s) then [s[0]] + Zeros(width - |s|) + s[1..]
    else Zeros(width - |s|) + s
  }

  /** A zip code is always five characters: shorter codes are zero-filled on
      the left (after a sign, as `zfill` does), longer ones are cut. */
  function ZipFormat(zip: string): (r: string)
    ensures |r| == 5
    ensures |zip| >= 5 ==> r == zip[..5]
    ensures |zip| < 5 && !Signed(zip) ==>
      EndsWith(r, zip) && forall i :: 0 <= i < 5 - |zip| ==> r[i] == '0'
    ensures |zip| < 5 && Signed(zip) ==>
      r[0] == zip[0] && EndsWith(r, zip[1..]) && forall i :: 1 <= i <= 5 - |zip| ==> r[i] == '0'
  {
    if |zip| < 5 then
      var r := ZeroFill(zip, 5);
      assert Signed(zip) ==> r[5 - (|zip| - 1)..] == zip[1..];
      r
    else if |zip| > 5 then zip[..5]
    else zip
  }

  /** Formatting a formatted zip code changes nothing. */
  lemma ZipIdempotent(zip: string)
    ensures ZipFormat(ZipFormat(zip)) == ZipFormat(zip)
  {
  }

  lemma ZipExamples()
    ensures ZipFormat("123") == "00123"
    ensures ZipFormat("123456") == "12345"
    ensures ZipFormat("12345") == "12345"
  {
    assert ZeroFill("123", 5) == "00" + "123";
  }

  // ---------------------------------------------------------------------
  // Free text (city)

  /** `_text_formater` with its default argument: keep ASCII letters and
      spaces; title-case only when what is left is entirely upper case. */
  function TextFormat(text: string): (r: string)
    ensures forall i :: 0 <= i < |r| ==> IsLetterOrSpace(r[i])
    ensures var c := Keep(text, IsLetterOrSpace);
      |r| == |c| && forall i :: 0 <= i < |r| ==> ToUpper(r[i]) == ToUpper(c[i])
    ensures var c := Keep(text, IsLetterOrSpace);
      !IsUpper(c) ==> r == c
    ensures var c := Keep(text, IsLetterOrSpace);
      IsUpper(c) ==> r == Title(c)
  {
    var c := Keep(text, IsLetterOrSpace);
    if IsUpper(c) then
      assert forall i :: 0 <= i < |c| && IsLetter(c[i]) ==> ToUpper(ToLower(c[i])) == ToUpper(c[i]);
      Title(c)
    else c
  }

  /** Formatting formatted text changes nothing. */
  lemma {:induction false} TextFormatIdempotent(text: string)
    ensures TextFormat(TextFormat(text)) == TextFormat(text)
  {
    var c := Keep(text, IsLetterOrSpace);
    var r := TextFormat(text);
    assert Keep(r, IsLetterOrSpace) == r;
    if IsUpper(c) {
      TitleIdempotent(c);
    }
  }

  // ---------------------------------------------------------------------
  // Phone numbers

  /** `_phone_formater` returns an int when the cell holds a digit and
      otherwise hands the cell back unchanged (the `int("")` error is caught). */
  datatype Phone = PhoneNumber(n: nat) | PhoneText(s: string)

  function PhoneFormat(phone: string): (r: Phone)
    ensures r.PhoneText? <==> forall i :: 0 <= i < |phone| ==> !IsDigit(phone[i])
    ensures r.PhoneText? ==> r.s == phone
  {
    var d := Keep(phone, IsDigit);
    if d == [] then
      assert forall i :: 0 <= i < |phone| ==> phone[i] in phone;
      PhoneText(phone)
    else
      assert d[0] in phone;
      PhoneNumber(DigitsValue(d))
  }

  /** A phone written as digits, leading zeros allowed, reads back as its
      number. */
  lemma PhoneOfDecimal(z: nat, n: nat)
    ensures PhoneFormat(Zeros(z) + Decimal(n)) == PhoneNumber(n)
  {
    var d := Zeros(z) + Decimal(n);
    DecimalValue(n);
    ZerosValue(z, Decimal(n));
    assert Keep(d, IsDigit) == d;
  }

  /** The number a phone cell becomes is written, in decimal, as the cell's
      digits in order without their leading zeros. */
  lemma PhoneDigits(phone: string)
    ensures PhoneFormat(phone).PhoneNumber? ==>
      exists z: nat :: Keep(phone, IsDigit) == Zeros(z) + Decimal(PhoneFormat(phone).n)
  {
    var d := Keep(phone, IsDigit);
    if d != [] {
      DigitsDecompose(d);
    }
  }

  /** A leading zero does not change the value of a digit string. */
  lemma {:induction false} LeadingZeroValue(t: string)
    requires AllDigits(t)
    ensures AllDigits("0" + t) && DigitsValue("0" + t) == DigitsValue(t)
  {
    if t != [] {
      var u := t[..|t| - 1];
      assert ("0" + t)[..|t|] == "0" + u;
      LeadingZeroValue(u);
    }
  }

  lemma {:induction false} ZerosValue(z: nat, d: string)
    requires AllDigits(d)
    ensures AllDigits(Zeros(z) + d) && DigitsValue(Zeros(z) + d) == DigitsValue(d)
  {
    if z > 0 {
      ZerosValue(z - 1, d);
      assert Zeros(z) + d == "0" + (Zeros(z - 1) + d);
      LeadingZeroValue(Zeros(z - 1) + d);
    } else {
      assert Zeros(z) + d == d;
    }
  }

  lemma {:induction false} PositiveValue(d: string)
    requires AllDigits(d) && d != [] && d[0] != '0'
    ensures DigitsValue(d) >= 1
  {
    if |d| > 1 {
      PositiveValue(d[..|d| - 1]);
    }
  }

  /** A digit string without a leading zero is the decimal form of its value. */
  lemma {:induction false} DecimalOfDigits(d: string)
    requires AllDigits(d) && d != [] && (|d| == 1 || d[0] != '0')
    ensures Decimal(DigitsValue(d)) == d
  {
    if |d| > 1 {
      var u := d[..|d| - 1];
      PositiveValue(u);
      DecimalOfDigits(u);
      var last := d[|d| - 1] as int - '0' as int;
      var v := DigitsValue(d);
      assert v == DigitsValue(u) * 10 + last;
      assert v / 10 == DigitsValue(u) && v % 10 == last;
      assert d == u + [DigitChar(last)];
    }
  }

  lemma ZerosCons(z: nat)
    ensures Zeros(z + 1) == "0" + Zeros(z)
  {
  }

  /** A zero put in front of a decomposed digit string joins its zeros. */
  lemma PrependZero(t: string, z: nat)
    requires AllDigits(t) && t == Zeros(z) + Decimal(DigitsValue(t))
    ensures AllDigits("0" + t) && "0" + t == Zeros(z + 1) + Decimal(DigitsValue("0" + t))
  {
    LeadingZeroValue(t);
    ZerosCons(z);
    assert "0" + t == ("0" + Zeros(z)) + Decimal(DigitsValue(t));
  }

  /** Every non-empty digit string is zeros followed by the decimal form of
      its value. */
  lemma {:induction false} DigitsDecompose(d: string)
    requires AllDigits(d) && d != []
    ensures exists z: nat :: d == Zeros(z) + Decimal(DigitsValue(d))
  {
    if |d| > 1 && d[0] == '0' {
      var t := d[1..];
      DigitsDecompose(t);
      var z: nat :| t == Zeros(z) + Decimal(DigitsValue(t));
      assert d == "0" + t;
      PrependZero(t, z);
    } else {
      DecimalOfDigits(d);
      assert d == Zeros(0) + Decimal(DigitsValue(d));
    }
  }

  /** Separators between the digits do not change the number. */
  lemma PhoneIgnoresSeparator(a: string, c: char, b: string)
    requires !IsDigit(c)
    ensures PhoneFormat(a + b).PhoneNumber? ==> PhoneFormat(a + [c] + b) == PhoneFormat(a + b)
  {
    var x, y := a + [c] + b, a + b;
    assert Keep(x, IsDigit) == Keep(y, IsDigit) by {
      KeepSingleNonDigit(c);
      KeepConcat(a + [c], b, IsDigit);
      KeepConcat(a, [c], IsDigit);
      KeepConcat(a, b, IsDigit);
    }
    if PhoneFormat(y).PhoneNumber? {
      PhoneSameDigits(x, y);
    }
  }

  lemma PhoneSameDigits(x: string, y: string)
    requires Keep(x, IsDigit) == Keep(y, IsDigit) != []
    ensures PhoneFormat(x) == PhoneFormat(y)
  {
  }

  lemma KeepSingleNonDigit(c: char)
    requires !IsDigit(c)
    ensures Keep([c], IsDigit) == []
  {
  }

  // ---------------------------------------------------------------------
  // SKUs

  predicate IsSkuChar(c: char)
  {
    IsLetter(c) || IsDigit(c) || c == '/' || c == '-'
  }

  predicate AllSkuChars(s: string)
  {
    forall i :: 0 <= i < |s| ==> IsSkuChar(s[i])
  }

  /** `re.match(r"^[a-zA-Z0-9/-]*$", sku)`: the character class consumed
      left to right, then the end anchor. Python's `$` also matches just
      before a final newline. */
  predicate HasValidSku(sku: string)
  {
    MatchSkuClass(sku) ||
      (|sku| > 0 && sku[|sku| - 1] == '\n' && MatchSkuClass(sku[..|sku| - 1]))
  }

  /** A SKU passes exactly when every character is in the class, except
      that the last one may be a newline. */
  lemma HasValidSkuMeaning(sku: string)
    ensures HasValidSku(sku) <==>
      forall i :: 0 <= i < |sku| ==> IsSkuChar(sku[i]) || (i == |sku| - 1 && sku[i] == '\n')
    ensures HasValidSku(sku) <==>
      AllSkuChars(sku) || (|sku| > 0 && sku[|sku| - 1] == '\n' && AllSkuChars(sku[..|sku| - 1]))
  {
    MatchSkuClassMeaning(sku);
    if |sku| > 0 {
      var u := sku[..|sku| - 1];
      MatchSkuClassMeaning(u);
      assert forall i :: 0 <= i < |u| ==> u[i] == sku[i];
    }
  }

  /** The `[a-zA-Z0-9/-]*` part of the pattern, consumed left to right. */
  predicate MatchSkuClass(s: string)
  {
    s == [] || (IsSkuChar(s[0]) && MatchSkuClass(s[1..]))
  }

  /** The class matcher accepts exactly the strings made of class characters. */
  lemma {:induction false} MatchSkuClassMeaning(s: string)
    ensures MatchSkuClass(s) <==> AllSkuChars(s)
  {
    if s != [] {
      MatchSkuClassMeaning(s[1..]);
      assert forall i :: 1 <= i < |s| ==> s[i] == s[1..][i - 1];
    }
  }

  /** The empty SKU matches the pattern; a space never does. */
  lemma SkuEdgeCases(sku: string)
    ensures HasValidSku("")
    ensures ' ' in sku ==> !HasValidSku(sku)
  {
    HasValidSkuMeaning("");
    HasValidSkuMeaning(sku);
    if ' ' in sku {
      var i :| 0 <= i < |sku| && sku[i] == ' ';
      assert !IsSkuChar(sku[i]);
    }
  }

  /** `re.sub(r"^S|(-R)|(-S)|(-P)|(-FBA)", "", sku)` after the leading
      position: every marker occurrence, scanned left to right, is removed. */
  function StripMarkers(s: string): (r: string)
    ensures |r| <= |s|
    ensures forall c :: c in r ==> c in s
  {
    if s == [] then []
    else if StartsWith(s, "-FBA") then StripMarkers(s[4..])
    else if StartsWith(s, "-R") || StartsWith(s, "-S") || StartsWith(s, "-P") then StripMarkers(s[2..])
    else [s[0]] + StripMarkers(s[1..])
  }

  predicate HasMarker(s: string)
  {
    Contains(s, "-R") || Contains(s, "-S") || Contains(s, "-P") || Contains(s, "-FBA")
  }

  /** `_sku_cleaner`: None for "SKU ..." values; otherwise the SKU with a
      leading "S" and every -R/-S/-P/-FBA marker removed. */
  function SkuCleaner(sku: string): (r: Option<string>)
    ensures r.None? <==> StartsWith(sku, "SKU ")
    ensures r.Some? ==> |r.value| <= |sku|
  {
    if StartsWith(sku, "SKU ") then None
    else if StartsWith(sku, "S") || HasMarker(sku) then
      Some(if StartsWith(sku, "S") then StripMarkers(sku[1..]) else StripMarkers(sku))
    else if Contains(sku, "-SML") then Some(sku)
    else Some(sku)
  }

  /** A SKU without markers passes through the marker removal unchanged, so
      the guard of the rewriting branch only saves work. */
  lemma {:induction false} StripMarkersNoMarker(s: string)
    requires !HasMarker(s)
    ensures StripMarkers(s) == s
  {
    if s != [] {
      assert !HasMarker(s[1..]);
      StripMarkersNoMarker(s[1..]);
    }
  }

  /** Every SKU containing "-SML" contains "-S", so the "-SML" branch of
      `_sku_cleaner` is never reached. */
  lemma {:induction false} SmlBranchUnreachable(s: string)
    requires Contains(s, "-SML")
    ensures Contains(s, "-S")
  {
    if !StartsWith(s, "-SML") {
      SmlBranchUnreachable(s[1..]);
    } else {
      assert s[..2] == s[..4][..2];
    }
  }

  /** Where a marker-free text meets a `-`, no marker starts: the text
      would have to hold the marker's first characters itself. */
  lemma NoMarkerAtJoin(x: string, z: string)
    requires x != [] && !HasMarker(x) && z != [] && z[0] == '-'
    ensures !StartsWith(x + z, "-R") && !StartsWith(x + z, "-S") && !StartsWith(x + z, "-P")
    ensures !StartsWith(x + z, "-FBA")
  {
    assert !StartsWith(x, "-R") && !StartsWith(x, "-S") && !StartsWith(x, "-P") && !StartsWith(x, "-FBA");
    if |x| == 1 {
      assert (x + z)[1] == '-';
    } else {
      assert (x + z)[..2] == x[..2];
    }
    if |x| < 4 {
      assert (x + z)[|x|] == '-';
    } else {
      assert (x + z)[..4] == x[..4];
    }
  }

  /** A text that does not start with a marker keeps its first character. */
  lemma StripMarkersKeeps(s: string)
    requires s != [] && !StartsWith(s, "-FBA")
    requires !StartsWith(s, "-R") && !StartsWith(s, "-S") && !StartsWith(s, "-P")
    ensures StripMarkers(s) == [s[0]] + StripMarkers(s[1..])
  {
  }

  /** A marker at the start is dropped. */
  lemma StripMarkersDrops(m: string, y: string)
    requires m == "-R" || m == "-S" || m == "-P" || m == "-FBA"
    ensures StripMarkers(m + y) == StripMarkers(y)
  {
    assert StartsWith(m + y, m);
    assert (m + y)[|m|..] == y;
    assert (m + y)[1] == m[1];
  }

  /** Marker-free text before a `-` passes through the removal unchanged. */
  lemma {:induction false} StripMarkersPrefix(x: string, z: string)
    requires !HasMarker(x) && z != [] && z[0] == '-'
    ensures StripMarkers(x + z) == x + StripMarkers(z)
  {
    if x == [] {
      assert x + z == z;
    } else {
      var w := x + z;
      NoMarkerAtJoin(x, z);
      StripMarkersKeeps(w);
      assert w[0] == x[0];
      assert w[1..] == x[1..] + z;
      assert !HasMarker(x[1..]);
      StripMarkersPrefix(x[1..], z);
      Reassemble(x, StripMarkers(z));
    }
  }

  /** A text rebuilt from its first character and the rest. */
  lemma Reassemble(x: string, t: string)
    requires x != []
    ensures [x[0]] + (x[1..] + t) == x + t
  {
    assert [x[0]] + x[1..] == x;
  }

  /** The first marker occurrence, after marker-free text, is removed and
      the removal goes on after it: applied repeatedly, every -R, -S, -P
      and -FBA is gone and the rest is kept in order. */
  lemma MarkerRemoved(x: string, m: string, y: string)
    requires m == "-R" || m == "-S" || m == "-P" || m == "-FBA"
    requires !HasMarker(x)
    ensures StripMarkers(x + m + y) == x + StripMarkers(y)
  {
    assert x + m + y == x + (m + y);
    StripMarkersPrefix(x, m + y);
    StripMarkersDrops(m, y);
  }

  /** A SKU starting with "S", but not with "SKU ", loses that one "S" and
      the markers of the rest; a second "S" stays. */
  lemma SkuCleanerLeadingS(sku: string)
    requires StartsWith(sku, "S") && !StartsWith(sku, "SKU ")
    ensures SkuCleaner(sku) == Some(StripMarkers(sku[1..]))
  {
  }

  /** A leading "S" is dropped and the rest is cleaned as it would be on
      its own (when the rest does not itself start with "S"). */
  lemma SkuCleanerDropsLeadingS(x: string)
    requires !StartsWith(x, "S") && !StartsWith(x, "KU ")
    ensures SkuCleaner("S" + x) == SkuCleaner(x)
  {
    assert ("S" + x)[1..] == x;
    SkuCleanerIsMarkerRemoval(x);
  }

  /** A cleaned SKU that did not start with "S" is exactly the marker removal
      of the input, whichever branch was taken. */
  lemma SkuCleanerIsMarkerRemoval(sku: string)
    requires !StartsWith(sku, "S")
    ensures SkuCleaner(sku) == Some(StripMarkers(sku))
  {
    if !HasMarker(sku) {
      StripMarkersNoMarker(sku);
    }
  }
}
