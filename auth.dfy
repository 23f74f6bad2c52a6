/** The request signature of `BotsService.setAuthenticationHeader`: an `X-Api-Key` header
    `<apiKey>|<unix seconds>` and an `X-Api-Signature` header `sha256=<hex HMAC-SHA256 of the
    key header under the API secret>`. The HMAC and its hex encoding are a parameter. */
module Auth {
  import opened Json

  predicate IsDigit(c: char)
  {
    '0' <= c <= '9'
  }

  predicate AllDigits(s: string)
  {
    forall i :: 0 <= i < |s| ==> IsDigit(s[i])
  }

  function DigitChar(d: nat): (c: char)
    requires d < 10
    ensures IsDigit(c) && c as int - '0' as int == d
  {
    ('0' as int + d) as char
  }

  /** Decimal notation of a natural number, as JavaScript prints an integer-valued number
      below 10^21 (larger ones print in exponent notation). */
  function Decimal(n: nat): (s: string)
    ensures |s| >= 1 && AllDigits(s)
    ensures |s| > 1 ==> s[0] != '0'
    decreases n
  {
    if n < 10 then [DigitChar(n)] else Decimal(n / 10) + [DigitChar(n % 10)]
  }

  /** The number a string of decimal digits denotes. */
  function DecimalValue(s: string): nat
    requires AllDigits(s)
    decreases |s|
  {
    if s == [] then 0
    else DecimalValue(s[..|s| - 1]) * 10 + (s[|s| - 1] as int - '0' as int)
  }

  lemma {:induction false} DecimalRoundTrip(n: nat)
    ensures DecimalValue(Decimal(n)) == n
    decreases n
  {
    if n >= 10 {
      DecimalRoundTrip(n / 10);
      var s := Decimal(n);
      assert s[..|s| - 1] == Decimal(n / 10);
    }
  }

  /** `${t}` for an integer-valued number `t` below 10^21 in magnitude, which covers every
      Unix second `Date.now()` yields; beyond that JavaScript switches to exponent notation,
      which this function does not produce. */
  function NumberText(t: int): string
  {
    if t < 0 then "-" + Decimal(-t) else Decimal(t)
  }

  /** Reads back the text of an integer: an optional minus sign, then decimal digits. */
  function ParseNumberText(s: string): Option<int>
  {
    if |s| >= 2 && s[0] == '-' && AllDigits(s[1..]) then Some(0 - DecimalValue(s[1..]) as int)
    else if |s| >= 1 && AllDigits(s) then Some(DecimalValue(s))
    else None
  }

  lemma NumberTextRoundTrip(t: int)
    ensures ParseNumberText(NumberText(t)) == Some(t)
    ensures forall i :: 0 <= i < |NumberText(t)| ==> NumberText(t)[i] != '|'
  {
    var n: nat := if t < 0 then -t else t;
    DecimalRoundTrip(n);
    SignedDigitsParse(NumberText(t), Decimal(n), t < 0);
  }

  /** Digits, with a minus sign in front when `negative`, read back as the number they
      denote, and contain no bar. */
  lemma SignedDigitsParse(s: string, d: string, negative: bool)
    requires |d| >= 1 && AllDigits(d)
    requires s == if negative then "-" + d else d
    ensures ParseNumberText(s) == Some(if negative then 0 - DecimalValue(d) else DecimalValue(d))
    ensures forall i :: 0 <= i < |s| ==> s[i] != '|'
  {
    if negative {
      assert s[1..] == d;
      forall i | 0 <= i < |s|
        ensures s[i] != '|'
      {
        if i > 0 {
          assert s[i] == d[i - 1];
        }
      }
    } else {
      assert IsDigit(s[0]);
      forall i | 0 <= i < |s|
        ensures s[i] != '|'
      {
        assert IsDigit(s[i]);
      }
    }
  }

  /** The text of an integer is the canonical one: a minus sign exactly for negative
      numbers, then decimal digits without a leading zero, so zero is "0" and never "-0". */
  lemma NumberTextCanonical(t: int)
    ensures var s := NumberText(t);
      && |s| >= 1
      && (t >= 0 ==> AllDigits(s) && (s[0] == '0' ==> s == "0") && (s == "0" <==> t == 0))
      && (t < 0 ==> |s| >= 2 && s[0] == '-' && AllDigits(s[1..]) && s[1] != '0')
  {
    var s := NumberText(t);
    if t < 0 {
      assert s[1..] == Decimal(-t);
    } else if s == "0" {
      DecimalRoundTrip(t);
    }
  }

  /** `Math.floor(Date.now() / 1000)`: the Unix time in whole seconds, rounded down. */
  function UnixSeconds(nowMs: int): (t: int)
    ensures t * 1000 <= nowMs < t * 1000 + 1000
  {
    nowMs / 1000
  }

  /** The `X-Api-Key` value. */
  function KeyHeader(apiKey: string, nowMs: int): string
  {
    apiKey + "|" + NumberText(UnixSeconds(nowMs))
  }

  /** The `X-Api-Signature` value, over the key header `keyHeader`. */
  function SignatureHeader(apiSecret: string, keyHeader: string, hmacHex: (string, string) -> string): string
  {
    "sha256=" + hmacHex(apiSecret, keyHeader)
  }

  /** The header pair every remote call of one run carries. */
  datatype AuthHeaders = AuthHeaders(xApiKey: string, xApiSignature: string)

  /** The position of the last `|` of a string, if any. */
  function LastBar(s: string): (r: Option<nat>)
    ensures r.Some? ==> r.value < |s| && s[r.value] == '|'
    ensures r.Some? ==> forall i :: r.value < i < |s| ==> s[i] != '|'
    ensures r.None? ==> forall i :: 0 <= i < |s| ==> s[i] != '|'
    decreases |s|
  {
    if s == [] then None
    else if s[|s| - 1] == '|' then Some(|s| - 1)
    else LastBar(s[..|s| - 1])
  }

  /** An inverse of `KeyHeader`, used to show that the key and the second can be
      recovered: the API key is everything before the last `|` (a key may itself contain
      `|`), the timestamp everything after it. */
  function ParseKeyHeader(h: string): Option<(string, int)>
  {
    match LastBar(h)
    case None => None
    case Some(i) =>
      match ParseNumberText(h[i + 1..])
      case None => None
      case Some(t) => Some((h[..i], t))
  }

  /** `setAuthenticationHeader()`: the key header carries the API key and the current Unix
      second, recoverable from it; the signature header is the `sha256=` tag followed by the
      digest of exactly that key header. */
  function SetAuthenticationHeader(apiKey: string, apiSecret: string, nowMs: int,
                                   hmacHex: (string, string) -> string): (h: AuthHeaders)
    ensures h.xApiKey == apiKey + "|" + NumberText(UnixSeconds(nowMs))
    ensures ParseKeyHeader(h.xApiKey) == Some((apiKey, UnixSeconds(nowMs)))
    ensures |h.xApiSignature| >= 7 && h.xApiSignature[..7] == "sha256="
    ensures h.xApiSignature[7..] == hmacHex(apiSecret, h.xApiKey)
  {
    var key := KeyHeader(apiKey, nowMs);
    KeyHeaderRoundTrip(apiKey, nowMs);
    AuthHeaders(key, SignatureHeader(apiSecret, key, hmacHex))
  }

  lemma KeyHeaderRoundTrip(apiKey: string, nowMs: int)
    ensures ParseKeyHeader(KeyHeader(apiKey, nowMs)) == Some((apiKey, UnixSeconds(nowMs)))
  {
    var t := NumberText(UnixSeconds(nowMs));
    var h := KeyHeader(apiKey, nowMs);
    var n := |apiKey|;
    NumberTextRoundTrip(UnixSeconds(nowMs));
    assert h[n] == '|';
    assert h[n + 1..] == t;
    assert h[..|apiKey|] == apiKey;
  }
}
