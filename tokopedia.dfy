/**
 * The Tokopedia scraper (src/scrapers/tokopedia.ts): the product-URL
 * validator, the normalisation of the scraped price text, and the sequence of
 * checks `scrapeTokopedia` runs on what `fetch` and the HTML parser return.
 * The network request and the HTML parser are oracles: the caller supplies
 * what they produced.
 */
module Tokopedia {
  import opened Wrappers
  import opened Text
  import opened Errors

  // ---------------------------------------------------------------------------
  // URL validation: /^https?:\/\/(?:www\.)?tokopedia\.com\/[^/]+\/[^/]+/i
  // ---------------------------------------------------------------------------

  /** What is left after the scheme (`https://` or `http://`, any case). */
  function AfterScheme(s: string): Option<string> {
    if HasPrefixIgnoringCase(s, "https://") then Some(s[8..])
    else if HasPrefixIgnoringCase(s, "http://") then Some(s[7..])
    else None
  }

  /** What is left after an optional `www.` and then `tokopedia.com/`. */
  function AfterHost(t: string): Option<string> {
    var u := if HasPrefixIgnoringCase(t, "www.") then t[4..] else t;
    if HasPrefixIgnoringCase(u, "tokopedia.com/") then Some(u[14..]) else None
  }

  /** Index of the first `/` in `p`, or `|p|` when there is none. */
  function FirstSlash(p: string): (k: nat)
    ensures k <= |p|
    ensures k < |p| ==> p[k] == '/'
    ensures forall j :: 0 <= j < k ==> p[j] != '/'
  {
    if p == [] || p[0] == '/' then 0 else 1 + FirstSlash(p[1..])
  }

  /** `[^/]+\/[^/]+` at the start of `p`: a slash-free segment, `/`, one non-slash character. */
  predicate PathMatches(p: string) {
    var k := FirstSlash(p);
    0 < k && k + 1 < |p| && p[k + 1] != '/'
  }

  /**
   * `isValidTokopediaUrl(url)` (the regular expression is anchored at the
   * start only). An accepted URL starts with `http` and has at least 24
   * characters: the 7 of `http://`, the 14 of `tokopedia.com/`, and three for
   * the segment, its `/` and the character after it.
   */
  predicate IsValidTokopediaUrl(url: string)
    ensures IsValidTokopediaUrl(url) ==> |url| >= 24 && HasPrefixIgnoringCase(url, "http")
  {
    match AfterScheme(url)
    case None => false
    case Some(t) =>
      match AfterHost(t)
      case None => false
      case Some(p) => PathMatches(p)
  }

  /**
   * A decomposition of a URL along the regular expression: the scheme, the
   * optional `www.`, the host `tokopedia.com/`, the shop segment, and what
   * follows the second `/` (its first character must not be `/`).
   */
  datatype UrlParts = UrlParts(scheme: string, www: string, host: string, shop: string, rest: string)

  predicate NoSlash(s: string) {
    forall i :: 0 <= i < |s| ==> s[i] != '/'
  }

  /** `parts` splits `url` the way the regular expression reads it. */
  predicate Describes(parts: UrlParts, url: string) {
    && (EqualsIgnoringCase(parts.scheme, "http://") || EqualsIgnoringCase(parts.scheme, "https://"))
    && (parts.www == "" || EqualsIgnoringCase(parts.www, "www."))
    && EqualsIgnoringCase(parts.host, "tokopedia.com/")
    && |parts.shop| > 0 && NoSlash(parts.shop)
    && |parts.rest| > 0 && parts.rest[0] != '/'
    && url == parts.scheme + parts.www + parts.host + parts.shop + "/" + parts.rest
  }

  lemma SchemeSplit(url: string) returns (scheme: string)
    requires AfterScheme(url).Some?
    ensures url == scheme + AfterScheme(url).value
    ensures EqualsIgnoringCase(scheme, "http://") || EqualsIgnoringCase(scheme, "https://")
  {
    var n := if HasPrefixIgnoringCase(url, "https://") then 8 else 7;
    scheme := url[..n];
    assert url == url[..n] + url[n..];
  }

  lemma HostSplit(t: string) returns (www: string, host: string)
    requires AfterHost(t).Some?
    ensures t == www + host + AfterHost(t).value
    ensures www == "" || EqualsIgnoringCase(www, "www.")
    ensures EqualsIgnoringCase(host, "tokopedia.com/")
  {
    var w := if HasPrefixIgnoringCase(t, "www.") then 4 else 0;
    var u := t[w..];
    www, host := t[..w], u[..14];
    assert u == u[..14] + u[14..];
    assert t == t[..w] + u;
  }

  lemma PathSplit(p: string) returns (shop: string, rest: string)
    requires PathMatches(p)
    ensures |shop| > 0 && NoSlash(shop) && |rest| > 0 && rest[0] != '/'
    ensures p == shop + "/" + rest
  {
    var k := FirstSlash(p);
    shop, rest := p[..k], p[k + 1..];
    assert p == p[..k] + [p[k]] + p[k + 1..];
  }

  /** Every accepted URL decomposes along the regular expression. */
  lemma ValidUrlHasParts(url: string) returns (parts: UrlParts)
    requires IsValidTokopediaUrl(url)
    ensures Describes(parts, url)
  {
    var scheme := SchemeSplit(url);
    var t := AfterScheme(url).value;
    var www, host := HostSplit(t);
    var p := AfterHost(t).value;
    var shop, rest := PathSplit(p);
    parts := UrlParts(scheme, www, host, shop, rest);
    ConcatFive(url, t, p, scheme, www, host, shop, rest);
  }

  lemma ConcatFive(url: string, t: string, p: string, scheme: string, www: string, host: string, shop: string, rest: string)
    requires url == scheme + t && t == www + host + p && p == shop + "/" + rest
    ensures url == scheme + www + host + shop + "/" + rest
  {
  }

  lemma SchemeAccepted(scheme: string, t: string)
    requires EqualsIgnoringCase(scheme, "http://") || EqualsIgnoringCase(scheme, "https://")
    ensures AfterScheme(scheme + t) == Some(t)
  {
    var url := scheme + t;
    if |scheme| == 7 {
      assert Lower(url[4]) == ':';
      assert (scheme + t)[7..] == t;
    } else {
      assert (scheme + t)[8..] == t;
    }
  }

  lemma HostAccepted(www: string, host: string, p: string)
    requires www == "" || EqualsIgnoringCase(www, "www.")
    requires EqualsIgnoringCase(host, "tokopedia.com/")
    ensures AfterHost(www + host + p) == Some(p)
  {
    var t := www + host + p;
    if www == "" {
      assert t == host + p;
      assert Lower(t[0]) == 't';
      assert (host + p)[14..] == p;
    } else {
      assert t[4..] == host + p;
      assert (host + p)[14..] == p;
    }
  }

  lemma PathAccepted(shop: string, rest: string)
    requires |shop| > 0 && NoSlash(shop) && |rest| > 0 && rest[0] != '/'
    ensures PathMatches(shop + "/" + rest)
  {
    var p := shop + "/" + rest;
    var k := FirstSlash(p);
    assert p[|shop|] == '/';
    assert k == |shop|;
    assert p[k + 1] == rest[0];
  }

  /** Every string that decomposes along the regular expression is accepted. */
  lemma PartsMakeValidUrl(url: string, parts: UrlParts)
    requires Describes(parts, url)
    ensures IsValidTokopediaUrl(url)
  {
    var p := parts.shop + "/" + parts.rest;
    var t := parts.www + parts.host + p;
    assert url == parts.scheme + t;
    SchemeAccepted(parts.scheme, t);
    HostAccepted(parts.www, parts.host, p);
    PathAccepted(parts.shop, parts.rest);
  }

  /** The match is anchored only at the start: anything may follow an accepted URL. */
  lemma {:induction false} AcceptedUrlAnySuffix(url: string, suffix: string)
    requires IsValidTokopediaUrl(url)
    ensures IsValidTokopediaUrl(url + suffix)
  {
    var parts := ValidUrlHasParts(url);
    var longer := parts.(rest := parts.rest + suffix);
    ExtendLastPart(url, parts.scheme + parts.www + parts.host + parts.shop + "/", parts.rest, suffix);
    PartsMakeValidUrl(url + suffix, longer);
  }

  lemma ExtendLastPart(url: string, front: string, rest: string, suffix: string)
    requires url == front + rest
    ensures url + suffix == front + (rest + suffix)
  {
  }

  /** After the scheme, only `tokopedia.com/` or `www.tokopedia.com/` (any case) can follow. */
  lemma OtherHostRejected(url: string)
    requires AfterScheme(url).Some?
    requires !HasPrefixIgnoringCase(AfterScheme(url).value, "tokopedia.com/")
    requires !HasPrefixIgnoringCase(AfterScheme(url).value, "www.tokopedia.com/")
    ensures !IsValidTokopediaUrl(url)
  {
    var t := AfterScheme(url).value;
    if HasPrefixIgnoringCase(t, "www.") && HasPrefixIgnoringCase(t[4..], "tokopedia.com/") {
      WwwThenHost(t);
    }
  }

  /** `www.` followed by `tokopedia.com/` is the prefix `www.tokopedia.com/`. */
  lemma WwwThenHost(t: string)
    requires HasPrefixIgnoringCase(t, "www.") && HasPrefixIgnoringCase(t[4..], "tokopedia.com/")
    ensures HasPrefixIgnoringCase(t, "www.tokopedia.com/")
  {
    var host := "tokopedia.com/";
    var full := "www.tokopedia.com/";
    forall i | 0 <= i < |full| ensures Lower(t[i]) == full[i] {
      if i >= 4 {
        assert t[i] == t[4..][i - 4] && full[i] == host[i - 4];
      }
    }
  }

  /**
   * A sub-domain host is rejected: after the scheme, any non-empty label
   * without a `.` other than `www` (in any case) in front of
   * `.tokopedia.com/` makes the URL invalid, whatever follows.
   */
  lemma SubdomainRejected(scheme: string, sub: string, rest: string)
    requires EqualsIgnoringCase(scheme, "http://") || EqualsIgnoringCase(scheme, "https://")
    requires sub != [] && '.' !in sub
    requires !EqualsIgnoringCase(sub, "www")
    ensures !IsValidTokopediaUrl(scheme + sub + ".tokopedia.com/" + rest)
  {
    var t := sub + ".tokopedia.com/" + rest;
    var url := scheme + sub + ".tokopedia.com/" + rest;
    assert url == scheme + t;
    SchemeAccepted(scheme, t);
    LabelNotHost(sub, rest);
    OtherHostRejected(url);
  }

  /** A dot-free host label other than `www`, then `.`, starts neither `tokopedia.com/` nor `www.tokopedia.com/`. */
  lemma LabelNotHost(sub: string, rest: string)
    requires sub != [] && '.' !in sub
    requires !EqualsIgnoringCase(sub, "www")
    ensures var t := sub + ".tokopedia.com/" + rest;
      !HasPrefixIgnoringCase(t, "tokopedia.com/") && !HasPrefixIgnoringCase(t, "www.tokopedia.com/")
  {
    var t := sub + ".tokopedia.com/" + rest;
    var n := |sub|;
    var host := "tokopedia.com/";
    var full := "www.tokopedia.com/";
    assert t[n] == '.' && t[n + 1] == 't';
    assert forall i :: 0 <= i < n ==> t[i] == sub[i];
    // An index where `t` differs from `host`, ignoring case.
    var i: int;
    if n < 9 {
      i := n;
      assert host[i] != '.';
    } else if n == 9 {
      i := 10;
    } else {
      i := 9;
      assert t[9] == sub[9] && t[9] != '.';
    }
    assert Lower(t[i]) != host[i];
    // An index where `t` differs from `full`, ignoring case.
    var j: int;
    if n < 3 {
      j := n;
      assert full[j] != '.';
    } else if n == 3 {
      j :| 0 <= j < 3 && Lower(sub[j]) != "www"[j];
      assert full[j] == "www"[j] && t[j] == sub[j];
    } else {
      j := 3;
      assert t[3] == sub[3] && t[3] != '.';
    }
    assert Lower(t[j]) != full[j];
  }

  /** `https://tk.tokopedia.com/shop/item` is one such URL. */
  lemma SubdomainExample()
    ensures !IsValidTokopediaUrl("https://tk.tokopedia.com/shop/item")
  {
    assert "https://tk.tokopedia.com/shop/item" == "https://" + "tk" + ".tokopedia.com/" + "shop/item";
    SubdomainRejected("https://", "tk", "shop/item");
  }

  // ---------------------------------------------------------------------------
  // Price text: priceText.replace(/[^\d,]/g, '').replace(',', '.'), then parseFloat
  // ---------------------------------------------------------------------------

  predicate IsPriceChar(c: char) {
    IsDigit(c) || c == ','
  }

  /** `replace(/[^\d,]/g, '')`: keep ASCII digits and commas, in order. */
  function KeepDigitsAndCommas(s: string): (r: string)
    ensures |r| <= |s|
    ensures forall i :: 0 <= i < |r| ==> IsPriceChar(r[i])
  {
    if s == [] then []
    else (if IsPriceChar(s[0]) then [s[0]] else []) + KeepDigitsAndCommas(s[1..])
  }

  /** `replace(',', '.')`: with a string pattern only the first comma is replaced. */
  function ReplaceFirstComma(s: string): (r: string)
    ensures |r| == |s|
    ensures forall i :: 0 <= i < |s| ==> r[i] == s[i] || (s[i] == ',' && r[i] == '.')
    ensures forall i, j :: 0 <= i < j < |s| && r[i] != s[i] ==> r[j] == s[j]
  {
    if s == [] then []
    else if s[0] == ',' then ['.'] + s[1..]
    else [s[0]] + ReplaceFirstComma(s[1..])
  }

  /** `priceText.replace(/[^\d,]/g, '').replace(',', '.')`: never longer than the text, only digits, commas and `.`. */
  function NormalizePriceText(text: string): (r: string)
    ensures |r| <= |text|
    ensures forall i :: 0 <= i < |r| ==> IsPriceChar(r[i]) || r[i] == '.'
  {
    ReplaceFirstComma(KeepDigitsAndCommas(text))
  }

  /** The ASCII digits of `s`, in order. */
  function Digits(s: string): (r: string)
    ensures AllDigits(r)
  {
    if s == [] then [] else (if IsDigit(s[0]) then [s[0]] else []) + Digits(s[1..])
  }

  /**
   * The shape `ReplaceFirstComma` gives a string of digits and commas: the same
   * length, only digits, commas and `.`, a `.` preceded by digits only, and no
   * second `.` after it.
   */
  lemma {:induction false} ReplaceFirstCommaShape(s: string)
    requires forall i :: 0 <= i < |s| ==> IsPriceChar(s[i])
    ensures var r := ReplaceFirstComma(s);
      && |r| == |s|
      && (forall i :: 0 <= i < |r| ==> IsPriceChar(r[i]) || r[i] == '.')
      && (forall i, j :: 0 <= j < i < |r| && r[i] == '.' ==> IsDigit(r[j]))
      && (forall i, j :: 0 <= i < j < |r| && r[i] == '.' ==> r[j] != '.')
  {
    if s != [] && s[0] != ',' {
      ReplaceFirstCommaShape(s[1..]);
      var r := ReplaceFirstComma(s);
      assert r == [s[0]] + ReplaceFirstComma(s[1..]);
      forall i, j | 0 <= j < i < |r| && r[i] == '.' ensures IsDigit(r[j]) {
        if j > 0 {
          assert r[i] == ReplaceFirstComma(s[1..])[i - 1];
        }
      }
    }
  }

  /** The normalised text holds only digits, commas and at most one `.`, which no comma precedes. */
  lemma NormalizedPriceShape(text: string)
    ensures var r := NormalizePriceText(text);
      && (forall i :: 0 <= i < |r| ==> IsDigit(r[i]) || r[i] == ',' || r[i] == '.')
      && (forall i, j :: 0 <= j < i < |r| && r[i] == '.' ==> IsDigit(r[j]))
      && (forall i, j :: 0 <= i < j < |r| && r[i] == '.' ==> r[j] != '.')
  {
    ReplaceFirstCommaShape(KeepDigitsAndCommas(text));
  }

  lemma {:induction false} ReplaceFirstCommaDigits(s: string)
    ensures Digits(ReplaceFirstComma(s)) == Digits(s)
  {
    if s != [] {
      if s[0] == ',' {
        assert Digits(['.'] + s[1..]) == Digits(s[1..]) by {
          assert (['.'] + s[1..])[1..] == s[1..];
        }
      } else {
        ReplaceFirstCommaDigits(s[1..]);
        assert ([s[0]] + ReplaceFirstComma(s[1..]))[1..] == ReplaceFirstComma(s[1..]);
      }
    }
  }

  lemma {:induction false} KeepDigitsAndCommasDigits(s: string)
    ensures Digits(KeepDigitsAndCommas(s)) == Digits(s)
  {
    if s != [] {
      KeepDigitsAndCommasDigits(s[1..]);
      var rest := KeepDigitsAndCommas(s[1..]);
      if IsPriceChar(s[0]) {
        assert KeepDigitsAndCommas(s) == [s[0]] + rest;
        assert ([s[0]] + rest)[1..] == rest;
      } else {
        assert KeepDigitsAndCommas(s) == rest;
      }
    }
  }

  /** Normalisation keeps every digit of the price text, in order. */
  lemma NormalizeKeepsDigits(text: string)
    ensures Digits(NormalizePriceText(text)) == Digits(text)
  {
    KeepDigitsAndCommasDigits(text);
    ReplaceFirstCommaDigits(KeepDigitsAndCommas(text));
  }

  /** Number of leading ASCII digits of `t`. */
  function LeadingDigits(t: string): (k: nat)
    ensures k <= |t|
    ensures forall j :: 0 <= j < k ==> IsDigit(t[j])
    ensures k < |t| ==> !IsDigit(t[k])
  {
    if t == [] || !IsDigit(t[0]) then 0 else 1 + LeadingDigits(t[1..])
  }

  function Pow10(n: nat): (p: nat)
    ensures p > 0
  {
    if n == 0 then 1 else 10 * Pow10(n - 1)
  }

  /**
   * `parseFloat` on a string of digits, commas and `.`: the longest prefix that
   * is a decimal literal (`ddd`, `ddd.`, `ddd.ddd` or `.ddd`), read exactly;
   * `None` stands for NaN.
   */
  function ParseDecimal(t: string): (r: Option<real>)
    ensures r.Some? ==> r.value >= 0.0
  {
    var k := LeadingDigits(t);
    var whole := DigitsValue(t[..k]) as real;
    if k < |t| && t[k] == '.' && LeadingDigits(t[k + 1..]) > 0 then
      var f := LeadingDigits(t[k + 1..]);
      Some(whole + DigitsValue(t[k + 1..k + 1 + f]) as real / Pow10(f) as real)
    else if k > 0 then Some(whole)
    else None
  }

  /**
   * The price read from the scraped price text, `None` where `isNaN(price)`.
   * The filter drops any `-`, so a price is never negative.
   */
  function ParsePriceText(priceText: string): (r: Option<real>)
    ensures r.Some? ==> r.value >= 0.0
  {
    ParseDecimal(NormalizePriceText(priceText))
  }

  /**
   * The price text yields a number exactly when, after dropping everything but
   * digits and commas, it is non-empty and starts with a digit or with a comma
   * followed by a digit.
   */
  lemma PriceParsesIff(priceText: string)
    ensures var f := KeepDigitsAndCommas(priceText);
      ParsePriceText(priceText).Some? <==> |f| > 0 && (IsDigit(f[0]) || (|f| > 1 && IsDigit(f[1])))
  {
    var f := KeepDigitsAndCommas(priceText);
    var t := ReplaceFirstComma(f);
    if f != [] {
      if f[0] == ',' {
        assert t == ['.'] + f[1..];
        assert t[1..] == f[1..];
        assert LeadingDigits(t) == 0;
      } else {
        assert t[0] == f[0];
      }
    }
  }

  lemma {:induction false} NoCommaUnchanged(s: string)
    requires forall i :: 0 <= i < |s| ==> s[i] != ','
    ensures ReplaceFirstComma(s) == s
  {
    if s != [] {
      NoCommaUnchanged(s[1..]);
    }
  }

  /**
   * A price text without commas (dots used as thousands separators, as in
   * `Rp1.250.000`) reads as the whole number formed by all its digits.
   */
  lemma PriceWithoutCommaIsWhole(priceText: string)
    requires forall i :: 0 <= i < |priceText| ==> priceText[i] != ','
    requires Digits(priceText) != []
    ensures ParsePriceText(priceText) == Some(DigitsValue(Digits(priceText)) as real)
  {
    var f := KeepDigitsAndCommas(priceText);
    KeepDigitsAndCommasDigits(priceText);
    NoCommaFiltered(priceText);
    NoCommaUnchanged(f);
    assert NormalizePriceText(priceText) == f;
    assert AllDigits(f);
    DigitsOfDigits(f);
    ParseDigitRun(f);
  }

  /** A non-empty run of digits reads as its whole value. */
  lemma ParseDigitRun(t: string)
    requires t != [] && AllDigits(t)
    ensures ParseDecimal(t) == Some(DigitsValue(t) as real)
  {
    assert LeadingDigits(t) == |t|;
    assert t[..|t|] == t;
  }

  lemma {:induction false} NoCommaFiltered(s: string)
    requires forall i :: 0 <= i < |s| ==> s[i] != ','
    ensures forall i :: 0 <= i < |KeepDigitsAndCommas(s)| ==> KeepDigitsAndCommas(s)[i] != ','
  {
    if s != [] {
      NoCommaFiltered(s[1..]);
    }
  }

  lemma {:induction false} DigitsOfDigits(s: string)
    requires AllDigits(s)
    ensures Digits(s) == s
  {
    if s != [] {
      DigitsOfDigits(s[1..]);
    }
  }

  /** The filter keeps a single character exactly when it is a digit or a comma. */
  lemma KeepOneChar(c: char)
    ensures KeepDigitsAndCommas([c]) == if IsPriceChar(c) then [c] else []
  {
    assert [c][1..] == [];
  }

  /**
   * The filter works character by character: the filtered concatenation is the
   * concatenation of the filtered halves. With `KeepOneChar` this pins
   * `KeepDigitsAndCommas(s)` down to the digits and commas of `s`, in order.
   */
  lemma {:induction false} KeepDigitsAndCommasAppend(a: string, b: string)
    ensures KeepDigitsAndCommas(a + b) == KeepDigitsAndCommas(a) + KeepDigitsAndCommas(b)
  {
    if a == [] {
      assert a + b == b;
    } else {
      var head: string := if IsPriceChar(a[0]) then [a[0]] else [];
      KeepDigitsAndCommasAppend(a[1..], b);
      assert (a + b)[0] == a[0] && (a + b)[1..] == a[1..] + b;
      assert KeepDigitsAndCommas(a + b) == head + KeepDigitsAndCommas(a[1..] + b);
      assert KeepDigitsAndCommas(a) == head + KeepDigitsAndCommas(a[1..]);
      StringAssoc(head, KeepDigitsAndCommas(a[1..]), KeepDigitsAndCommas(b));
    }
  }

  /** Concatenation of strings is associative. */
  lemma StringAssoc(x: string, y: string, z: string)
    ensures x + (y + z) == (x + y) + z
  {
  }

  /**
   * `replace(',', '.')` turns the first comma into `.` and leaves every other
   * character, later commas included, as it was.
   */
  lemma {:induction false} ReplaceAtFirstComma(s: string, i: int)
    requires 0 <= i < |s| && s[i] == ','
    requires forall j :: 0 <= j < i ==> s[j] != ','
    ensures ReplaceFirstComma(s) == s[..i] + "." + s[i + 1..]
  {
    if i > 0 {
      ReplaceAtFirstComma(s[1..], i - 1);
      assert s[1..][..i - 1] == s[1..i] && s[1..][i..] == s[i + 1..];
      assert [s[0]] + s[1..i] == s[..i];
    }
  }

  /** A run of digits followed by text that does not start with a digit has exactly that many leading digits. */
  lemma {:induction false} LeadingDigitsOfRun(d: string, rest: string)
    requires AllDigits(d)
    requires rest == [] || !IsDigit(rest[0])
    ensures LeadingDigits(d + rest) == |d|
  {
    if d == [] {
      assert d + rest == rest;
    } else {
      LeadingDigitsOfRun(d[1..], rest);
      assert (d + rest)[1..] == d[1..] + rest;
    }
  }

  /** Digits, `.` and more text split after the digits, at the `.`. */
  lemma {:induction false} PointParts(d1: string, d2: string)
    requires AllDigits(d1)
    ensures var t := d1 + "." + d2;
      && LeadingDigits(t) == |d1| && t[..|d1|] == d1 && t[|d1|] == '.' && t[|d1| + 1..] == d2
  {
    var t := d1 + "." + d2;
    assert t == d1 + ("." + d2);
    LeadingDigitsOfRun(d1, "." + d2);
  }

  /** `parseFloat` stops at a `.` that no digit follows. */
  lemma {:induction false} WholeBeforePoint(d1: string)
    requires AllDigits(d1) && d1 != []
    ensures ParseDecimal(d1 + ".") == Some(DigitsValue(d1) as real)
  {
    PointParts(d1, []);
    assert d1 + "." + [] == d1 + ".";
    assert LeadingDigits((d1 + ".")[|d1| + 1..]) == 0;
  }

  /** `parseFloat` reads the digits after the `.` as the fraction. */
  lemma {:induction false} FractionAfterPoint(d1: string, d2: string)
    requires AllDigits(d1) && AllDigits(d2) && d2 != []
    ensures ParseDecimal(d1 + "." + d2) == Some(DigitsValue(d1) as real + DigitsValue(d2) as real / Pow10(|d2|) as real)
  {
    var t := d1 + "." + d2;
    var k := |d1|;
    PointParts(d1, d2);
    LeadingDigitsOfRun(d2, []);
    assert d2 + [] == d2;
    assert LeadingDigits(t[k + 1..]) == |d2|;
    assert t[k + 1..k + 1 + |d2|] == d2;
  }

  /** `parseFloat` reads digits, `.` and digits as the whole part plus the fraction. */
  lemma {:induction false} DecimalWithPoint(d1: string, d2: string)
    requires AllDigits(d1) && AllDigits(d2)
    requires d1 + d2 != []
    ensures ParseDecimal(d1 + "." + d2) == Some(DigitsValue(d1) as real + DigitsValue(d2) as real / Pow10(|d2|) as real)
  {
    if d2 == [] {
      assert d1 + "." + d2 == d1 + ".";
      WholeBeforePoint(d1);
      assert DigitsValue(d2) == 0 && Pow10(|d2|) == 1;
    } else {
      FractionAfterPoint(d1, d2);
    }
  }

  /**
   * A price text whose digits and commas are a digit run, one comma and a
   * digit run (`Rp1.250,50` gives `1250,50`) reads as the first run plus the
   * second run as a decimal fraction.
   */
  lemma {:induction false} CommaPriceReads(priceText: string, d1: string, d2: string)
    requires AllDigits(d1) && AllDigits(d2) && d1 + d2 != []
    requires KeepDigitsAndCommas(priceText) == d1 + "," + d2
    ensures ParsePriceText(priceText) == Some(DigitsValue(d1) as real + DigitsValue(d2) as real / Pow10(|d2|) as real)
  {
    var f := d1 + "," + d2;
    assert f[..|d1|] == d1 && f[|d1| + 1..] == d2;
    ReplaceAtFirstComma(f, |d1|);
    DecimalWithPoint(d1, d2);
  }

  // ---------------------------------------------------------------------------
  // scrapeTokopedia
  // ---------------------------------------------------------------------------

  /** A value `fetch` or `response.text()` rejects with: an `Error` or anything else. */
  datatype NativeError = ErrorObject(message: string) | OtherValue(rendered: string)

  /** What `fetch(url)` and `response.text()` produced. */
  datatype FetchResult =
    | Response(ok: bool, status: nat, statusText: string, body: string)
    | Rejected(error: NativeError)

  /**
   * What the HTML parser reads from the page: the trimmed text of the
   * product-name heading and the raw text of the price element.
   */
  datatype PageFields = PageFields(title: string, priceText: string)

  datatype ScrapedProduct = ScrapedProduct(title: string, price: real, currency: string, available: bool, originalUrl: string)

  const InvalidUrlMessage := "Invalid Tokopedia URL format"
  const NotTokopediaMessage := "Response does not appear to be from Tokopedia"
  const NoTitleMessage := "Product title not found"
  const UnknownErrorMessage := "Unknown scraping error"

  function HttpErrorMessage(status: nat, statusText: string): string {
    "HTTP " + NatToString(status) + ": " + statusText
  }

  function PriceErrorMessage(priceText: string): string {
    "Could not parse price from: " + priceText
  }

  function Native(n: NativeError): Thrown {
    match n
    case ErrorObject(m) => PlainError(m, None)
    case OtherValue(r) => NonError(r)
  }

  /**
   * The body of the `try` block: the checks after the fetch, each throwing a
   * `ScrapingError` that carries `url`, or the fetch's own rejection.
   */
  function FetchAndParse(url: string, fetched: FetchResult, page: PageFields): (r: Result<ScrapedProduct, Thrown>)
    ensures r.Failure? && r.error.ScrapingError? ==> r.error.url == url
  {
    match fetched
    case Rejected(n) => Failure(Native(n))
    case Response(ok, status, statusText, body) =>
      if !ok then Failure(ScrapingError(HttpErrorMessage(status, statusText), url))
      else if !Contains(body, "tokopedia") then Failure(ScrapingError(NotTokopediaMessage, url))
      else if page.title == "" then Failure(ScrapingError(NoTitleMessage, url))
      else match ParsePriceText(page.priceText)
        case None => Failure(ScrapingError(PriceErrorMessage(page.priceText), url))
        case Some(price) => Success(ScrapedProduct(page.title, price, "IDR", true, url))
  }

  /** The `catch` block: a `ScrapingError` is rethrown, anything else is wrapped in one. */
  function Rewrap(e: Thrown, url: string): Thrown {
    if e.ScrapingError? then e
    else ScrapingError(if IsErrorInstance(e) then e.message else UnknownErrorMessage, url)
  }

  /**
   * `scrapeTokopedia(url)`: every failure is a `ScrapingError` naming `url`;
   * a result is always in IDR, available, non-empty in title and names `url`.
   */
  function ScrapeTokopedia(url: string, fetched: FetchResult, page: PageFields): (r: Result<ScrapedProduct, Thrown>)
    ensures r.Failure? ==> r.error.ScrapingError? && r.error.url == url
    ensures r.Success? ==>
      && IsValidTokopediaUrl(url)
      && r.value.currency == "IDR" && r.value.available && r.value.originalUrl == url
      && r.value.title != ""
      && ParsePriceText(page.priceText) == Some(r.value.price)
  {
    if !IsValidTokopediaUrl(url) then Failure(ScrapingError(InvalidUrlMessage, url))
    else
      match FetchAndParse(url, fetched, page)
      case Success(p) => Success(p)
      case Failure(e) => Failure(Rewrap(e, url))
  }

  /** An invalid URL fails before the fetch: the outcome does not depend on what the fetch would return. */
  lemma InvalidUrlFailsBeforeFetch(url: string, fetched: FetchResult, page: PageFields, fetched': FetchResult, page': PageFields)
    requires !IsValidTokopediaUrl(url)
    ensures ScrapeTokopedia(url, fetched, page) == ScrapeTokopedia(url, fetched', page')
    ensures ScrapeTokopedia(url, fetched, page) == Failure(ScrapingError(InvalidUrlMessage, url))
  {
  }

  /** The scrape succeeds exactly when every check passes, and then reads the parsed price. */
  lemma ScrapeSucceedsIff(url: string, fetched: FetchResult, page: PageFields)
    ensures ScrapeTokopedia(url, fetched, page).Success? <==>
      && IsValidTokopediaUrl(url)
      && fetched.Response? && fetched.ok && Contains(fetched.body, "tokopedia")
      && page.title != ""
      && ParsePriceText(page.priceText).Some?
    ensures ScrapeTokopedia(url, fetched, page).Success? ==>
      ScrapeTokopedia(url, fetched, page).value == ScrapedProduct(page.title, ParsePriceText(page.priceText).value, "IDR", true, url)
  {
  }

  /** A rejected fetch is wrapped: an `Error` keeps its message, anything else reads "Unknown scraping error". */
  lemma FetchRejectionWrapped(url: string, n: NativeError, page: PageFields)
    requires IsValidTokopediaUrl(url)
    ensures ScrapeTokopedia(url, Rejected(n), page) ==
      Failure(ScrapingError(if n.ErrorObject? then n.message else UnknownErrorMessage, url))
  {
  }
}
