/**
 * The private URL, `Data` and `String` extensions of the HTTP file-transfer
 * manager: lowercase Base16 (section 8 of RFC 4648), the `aesgcm://`
 * fragment that carries IV and key (XEP-0454, OMEMO Media Sharing), the
 * ciphertext-and-tag framing of an encrypted upload, the header allow-list
 * for an XEP-0363 upload slot, and the `aesgcm` to `https` rewrite.
 */
module FileTransfer {
  import opened Wrappers
  import opened Text

  // ---------------------------------------------------------------- Base16

  predicate IsHexChar(c: char)
  {
    '0' <= c <= '9' || 'a' <= c <= 'f' || 'A' <= c <= 'F'
  }

  predicate IsLowerHexChar(c: char)
  {
    '0' <= c <= '9' || 'a' <= c <= 'f'
  }

  /** The value of one hexadecimal digit, in either letter case. */
  function HexValue(c: char): (v: int)
    requires IsHexChar(c)
    ensures 0 <= v < 16
  {
    if '0' <= c <= '9' then c as int - '0' as int
    else if 'a' <= c <= 'f' then c as int - 'a' as int + 10
    else c as int - 'A' as int + 10
  }

  /** The lowercase digit that `%hhx` prints for a nibble. */
  function HexDigit(n: int): (c: char)
    requires 0 <= n < 16
    ensures IsLowerHexChar(c) && HexValue(c) == n
  {
    if n < 10 then ('0' as int + n) as char else ('a' as int + n - 10) as char
  }

  /** `String(format: "%02hhx", b)`: two lowercase digits, high nibble first. */
  function HexByte(b: byte): (r: string)
    ensures |r| == 2 && IsLowerHexChar(r[0]) && IsLowerHexChar(r[1])
    ensures HexValue(r[0]) * 16 + HexValue(r[1]) == b as int
  {
    [HexDigit(b as int / 16), HexDigit(b as int % 16)]
  }

  /** `Data.hexString()`: the two-digit form of every byte, joined. */
  function HexString(d: Bytes): (r: string)
    ensures |r| == 2 * |d|
    ensures forall i :: 0 <= i < |r| ==> IsLowerHexChar(r[i])
  {
    if d == [] then "" else HexByte(d[0]) + HexString(d[1..])
  }

  /**
   * The bytes that `dataFromHex` collects: the matches of the case-insensitive
   * regular expression `[0-9a-f]{1,2}`, scanned left to right without overlap.
   * A hexadecimal digit followed by another one gives one byte from the pair;
   * a digit standing alone gives one byte from that digit; anything else is
   * skipped, but it still separates two digits.
   */
  function HexDecode(s: string): (r: Bytes)
    ensures |r| <= |s|
    decreases |s|
  {
    if s == [] then []
    else if !IsHexChar(s[0]) then HexDecode(s[1..])
    else if |s| >= 2 && IsHexChar(s[1]) then [(HexValue(s[0]) * 16 + HexValue(s[1])) as byte] + HexDecode(s[2..])
    else [HexValue(s[0]) as byte] + HexDecode(s[1..])
  }

  /** `String.dataFromHex()`: the collected bytes, or nil when there are none. */
  method DataFromHex(s: string) returns (r: Option<Bytes>)
    ensures r == if HexDecode(s) == [] then None else Some(HexDecode(s))
  {
    var data: Bytes := [];
    var i := 0;
    while i < |s|
      invariant 0 <= i <= |s|
      invariant data + HexDecode(s[i..]) == HexDecode(s)
    {
      var t := s[i..];
      assert t[0] == s[i] && t[1..] == s[i + 1..];
      if !IsHexChar(s[i]) {
        assert HexDecode(t) == HexDecode(s[i + 1..]);
        i := i + 1;
      } else if i + 1 < |s| && IsHexChar(s[i + 1]) {
        assert t[1] == s[i + 1] && t[2..] == s[i + 2..];
        var b := (HexValue(s[i]) * 16 + HexValue(s[i + 1])) as byte;
        assert HexDecode(t) == [b] + HexDecode(s[i + 2..]);
        assert data + [b] + HexDecode(s[i + 2..]) == data + ([b] + HexDecode(s[i + 2..]));
        data := data + [b];
        i := i + 2;
      } else {
        var b := HexValue(s[i]) as byte;
        assert HexDecode(t) == [b] + HexDecode(s[i + 1..]);
        assert data + [b] + HexDecode(s[i + 1..]) == data + ([b] + HexDecode(s[i + 1..]));
        data := data + [b];
        i := i + 1;
      }
    }
    assert s[i..] == [];
    assert data == HexDecode(s);
    if |data| > 0 {
      r := Some(data);
    } else {
      r := None;
    }
  }

  /** The result of `dataFromHex` as a value, for lemmas about it. */
  function FromHex(s: string): Option<Bytes>
  {
    if HexDecode(s) == [] then None else Some(HexDecode(s))
  }

  /** The two digits of one byte decode to that byte, whatever follows them. */
  lemma HexByteDecodes(b: byte, rest: string)
    ensures HexDecode(HexByte(b) + rest) == [b] + HexDecode(rest)
  {
    var s := HexByte(b) + rest;
    assert s[2..] == rest;
    assert s[0] == HexByte(b)[0] && s[1] == HexByte(b)[1];
  }

  /** Decoding the encoder's output gives back the bytes that were encoded. */
  lemma {:induction false} HexRoundTrip(d: Bytes)
    ensures HexDecode(HexString(d)) == d
  {
    if d != [] {
      HexByteDecodes(d[0], HexString(d[1..]));
      HexRoundTrip(d[1..]);
    }
  }

  /** `dataFromHex(hexString(d)) == d` for non-empty data; empty data encodes to "" and decodes to nil. */
  lemma FromHexOfHexString(d: Bytes)
    ensures FromHex(HexString(d)) == if d == [] then None else Some(d)
  {
    HexRoundTrip(d);
  }

  /** `dataFromHex` finds nothing exactly when the string holds no hexadecimal digit. */
  lemma {:induction false} HexDecodeEmptyIff(s: string)
    ensures HexDecode(s) == [] <==> forall i :: 0 <= i < |s| ==> !IsHexChar(s[i])
    decreases |s|
  {
    if s != [] {
      HexDecodeEmptyIff(s[1..]);
      if !IsHexChar(s[0]) {
        assert forall i :: 1 <= i < |s| ==> s[i] == s[1..][i - 1];
      }
    }
  }

  /** The regular expression is case-insensitive: upper-case digits decode to the same bytes. */
  lemma {:induction false} HexDecodeIgnoresCase(s: string)
    ensures HexDecode(Upper(s)) == HexDecode(s)
    decreases |s|
  {
    if s != [] {
      var u := Upper(s);
      assert IsHexChar(u[0]) == IsHexChar(s[0]);
      assert IsHexChar(s[0]) ==> HexValue(u[0]) == HexValue(s[0]);
      assert u[1..] == Upper(s[1..]);
      HexDecodeIgnoresCase(s[1..]);
      if |s| >= 2 {
        assert IsHexChar(u[1]) == IsHexChar(s[1]);
        assert IsHexChar(s[1]) ==> HexValue(u[1]) == HexValue(s[1]);
        assert u[2..] == Upper(s[2..]);
        HexDecodeIgnoresCase(s[2..]);
      }
    }
  }

  /**
   * The doc comment of `dataFromHex` says non-hex characters are ignored;
   * the regular expression does not join digits across them: "a b" gives the
   * two bytes 0x0a and 0x0b, whereas "ab" gives the single byte 0xab.
   */
  lemma SeparatorSplitsDigitPairs()
    ensures HexDecode("a b") == [10, 11]
    ensures HexDecode("ab") == [171]
  {
    assert HexDecode("a b") == [10 as byte] + HexDecode(" b");
    assert HexDecode(" b") == HexDecode("b");
  }

  // ---------------------------------------------------- aesgcm:// fragments

  /** A symmetric key and IV recovered from a URL fragment. */
  datatype KeyIv = KeyIv(key: Bytes, iv: Bytes)

  /** `URL.anchorData`: the fragment decoded from hex, when the URL has a fragment. */
  function AnchorData(fragment: Option<string>): (r: Option<Bytes>)
    ensures fragment.None? ==> r.None?
    ensures fragment.Some? ==> r == FromHex(fragment.value)
  {
    match fragment
    case None => None
    case Some(f) => FromHex(f)
  }

  /**
   * `URL.aesGcmKey`: 48 anchor bytes are a 16-byte IV (legacy clients)
   * followed by a 32-byte key; 44 bytes are a 12-byte IV followed by the key;
   * any other length gives nil.
   */
  function AesGcmKey(fragment: Option<string>): (r: Option<KeyIv>)
    ensures r.Some? <==> AnchorData(fragment).Some? && |AnchorData(fragment).value| in {44, 48}
    ensures r.Some? ==> |r.value.key| == 32
    ensures r.Some? ==> |r.value.iv| == (if |AnchorData(fragment).value| == 48 then 16 else 12)
    ensures r.Some? ==> r.value.iv + r.value.key == AnchorData(fragment).value
  {
    match AnchorData(fragment)
    case None => None
    case Some(data) =>
      if |data| == 48 then Some(KeyIv(data[16..], data[..16]))
      else if |data| == 44 then Some(KeyIv(data[12..], data[..12]))
      else None
  }

  /** The fragment that an encrypted upload appends to its `aesgcm://` URL: hex of iv followed by key. */
  function UploadFragment(iv: Bytes, key: Bytes): string
  {
    HexString(iv + key)
  }

  /** A 12-byte IV and a 32-byte key written by an upload are read back unchanged by a download. */
  lemma UploadFragmentRoundTrip(iv: Bytes, key: Bytes)
    requires |iv| == 12 && |key| == 32
    ensures AesGcmKey(Some(UploadFragment(iv, key))) == Some(KeyIv(key, iv))
  {
    FromHexOfHexString(iv + key);
    assert (iv + key)[12..] == key && (iv + key)[..12] == iv;
  }

  /** A legacy 16-byte IV with a 32-byte key is accepted too. */
  lemma LegacyFragmentRoundTrip(iv: Bytes, key: Bytes)
    requires |iv| == 16 && |key| == 32
    ensures AesGcmKey(Some(HexString(iv + key))) == Some(KeyIv(key, iv))
  {
    FromHexOfHexString(iv + key);
    assert (iv + key)[16..] == key && (iv + key)[..16] == iv;
  }

  // ------------------------------------------------ ciphertext ‖ tag framing

  const AuthTagSize := 16

  /** The body of an encrypted upload: the AES-GCM ciphertext followed by its tag. */
  function UploadBody(ciphertext: Bytes, authTag: Bytes): Bytes
  {
    ciphertext + authTag
  }

  /** A download keeps its last 16 bytes as the tag, but only when there is more than a tag. */
  function SplitDownload(data: Bytes): (r: Option<(Bytes, Bytes)>)
    ensures r.Some? <==> |data| > AuthTagSize
    ensures r.Some? ==> |r.value.1| == AuthTagSize && r.value.0 + r.value.1 == data
  {
    if |data| > AuthTagSize then Some((data[..|data| - AuthTagSize], data[|data| - AuthTagSize..])) else None
  }

  /**
   * What `download` decrypts, given the URL fragment and the fetched data:
   * key, IV, ciphertext and tag, or nothing (and no completion) when the URL
   * has no usable key or the data is no longer than a tag.
   */
  function DownloadInputs(fragment: Option<string>, data: Bytes): (r: Option<(KeyIv, Bytes, Bytes)>)
    ensures r.Some? <==> AesGcmKey(fragment).Some? && |data| > AuthTagSize
    ensures r.Some? ==> r.value == (AesGcmKey(fragment).value, data[..|data| - AuthTagSize], data[|data| - AuthTagSize..])
  {
    match AesGcmKey(fragment)
    case None => None
    case Some(kv) =>
      match SplitDownload(data)
      case None => None
      case Some(parts) => Some((kv, parts.0, parts.1))
  }

  /** Ciphertext and tag written by an upload are split back apart, unless the ciphertext is empty. */
  lemma UploadBodyRoundTrip(ciphertext: Bytes, authTag: Bytes)
    requires |authTag| == AuthTagSize
    ensures SplitDownload(UploadBody(ciphertext, authTag)) == if ciphertext == [] then None else Some((ciphertext, authTag))
  {
    var d := UploadBody(ciphertext, authTag);
    if ciphertext != [] {
      assert d[..|d| - AuthTagSize] == ciphertext && d[|d| - AuthTagSize..] == authTag;
    }
  }

  // ------------------------------------------------------ slot PUT headers

  const AllowedHeaders: set<string> := {"authorization", "cookie", "expires"}

  /** A header name with its newlines removed, then lowercased. */
  function HeaderName(name: string): string
  {
    Lower(ReplaceAll(name, "\n", ""))
  }

  /** A header value with its newlines removed. */
  function HeaderValue(value: string): string
  {
    ReplaceAll(value, "\n", "")
  }

  /**
   * The headers `getHeaders` forwards after visiting `putHeaders` in
   * iteration order: an allowed name is (over)written by each header that
   * normalises to it.
   */
  function ForwardedHeaders(putHeaders: seq<(string, string)>): (r: map<string, string>)
    ensures r.Keys <= AllowedHeaders
    decreases |putHeaders|
  {
    if putHeaders == [] then map[]
    else
      var last := putHeaders[|putHeaders| - 1];
      var acc := ForwardedHeaders(putHeaders[..|putHeaders| - 1]);
      var name := HeaderName(last.0);
      if name in AllowedHeaders then acc[name := HeaderValue(last.1)] else acc
  }

  /** `getHeaders(slot:)`, over the slot's PUT headers in iteration order. */
  method GetHeaders(putHeaders: seq<(string, string)>) returns (headers: map<string, string>)
    ensures headers == ForwardedHeaders(putHeaders)
  {
    headers := map[];
    var i := 0;
    while i < |putHeaders|
      invariant 0 <= i <= |putHeaders|
      invariant headers == ForwardedHeaders(putHeaders[..i])
    {
      var name := HeaderName(putHeaders[i].0);
      if name in AllowedHeaders {
        headers := headers[name := HeaderValue(putHeaders[i].1)];
      }
      assert putHeaders[..i + 1][..i] == putHeaders[..i];
      i := i + 1;
    }
    assert putHeaders[..i] == putHeaders;
  }

  /**
   * A name is forwarded exactly when it is allowed and some PUT header
   * normalises to it, and its value is the newline-free value of the last
   * such header.
   */
  lemma {:induction false} ForwardedHeadersAre(putHeaders: seq<(string, string)>, name: string)
    ensures name in ForwardedHeaders(putHeaders) <==>
      name in AllowedHeaders && exists j :: 0 <= j < |putHeaders| && HeaderName(putHeaders[j].0) == name
    ensures name in ForwardedHeaders(putHeaders) ==>
      exists j :: 0 <= j < |putHeaders| && HeaderName(putHeaders[j].0) == name &&
        ForwardedHeaders(putHeaders)[name] == HeaderValue(putHeaders[j].1) &&
        forall k :: j < k < |putHeaders| ==> HeaderName(putHeaders[k].0) != name
    decreases |putHeaders|
  {
    if putHeaders != [] {
      var n := |putHeaders|;
      var init := putHeaders[..n - 1];
      ForwardedHeadersAre(init, name);
      assert forall j :: 0 <= j < n - 1 ==> init[j] == putHeaders[j];
      if HeaderName(putHeaders[n - 1].0) == name && name in AllowedHeaders {
        assert ForwardedHeaders(putHeaders)[name] == HeaderValue(putHeaders[n - 1].1);
      }
    }
  }

  /** Forwarded values never carry a newline. */
  lemma {:induction false} ForwardedValuesHaveNoNewline(putHeaders: seq<(string, string)>, name: string)
    requires name in ForwardedHeaders(putHeaders)
    ensures '\n' !in ForwardedHeaders(putHeaders)[name]
  {
    ForwardedHeadersAre(putHeaders, name);
    var j :| 0 <= j < |putHeaders| && HeaderName(putHeaders[j].0) == name &&
      ForwardedHeaders(putHeaders)[name] == HeaderValue(putHeaders[j].1);
    ReplaceAllRemovesChar(putHeaders[j].1, '\n');
  }

  // ------------------------------------------------------- aesgcm -> https

  /**
   * `URL.httpFromAes`: every "aesgcm" in the absolute URL string becomes
   * "https"; when the rewritten string does not parse as a URL (`parses`
   * stands for `URL(string:)`), the original URL is kept.
   */
  function HttpFromAes(url: string, parses: string -> bool): (r: string)
    ensures r == url || parses(r)
    ensures parses(ReplaceAll(url, "aesgcm", "https")) ==>
      r == ReplaceAll(url, "aesgcm", "https") && forall i: nat :: !OccursAt(r, "aesgcm", i)
    ensures !parses(ReplaceAll(url, "aesgcm", "https")) ==> r == url
  {
    RewriteLeavesNoAesgcm(url);
    var rewritten := ReplaceAll(url, "aesgcm", "https");
    if parses(rewritten) then rewritten else url
  }

  /**
   * A prefix of the rewritten string that contains no 'h' was copied from the
   * original: every "https" written starts with one.
   */
  lemma {:induction false} RewritePrefixWithoutH(s: string, q: string)
    requires 'h' !in q
    requires |q| <= |ReplaceAll(s, "aesgcm", "https")| && ReplaceAll(s, "aesgcm", "https")[..|q|] == q
    ensures |q| <= |s| && s[..|q|] == q
    decreases |s|
  {
    var pat, rep := "aesgcm", "https";
    if |s| >= |pat| && |q| > 0 {
      assert q[0] in q;
      if s[..|pat|] != pat {
        var t := ReplaceAll(s[1..], pat, rep);
        assert ReplaceAll(s, pat, rep) == [s[0]] + t;
        assert t[..|q| - 1] == q[1..];
        RewritePrefixWithoutH(s[1..], q[1..]);
        assert s[..|q|] == [s[0]] + s[1..][..|q| - 1];
      }
    }
  }

  /** No "aesgcm" is left once every occurrence has been rewritten to "https". */
  lemma {:induction false} RewriteLeavesNoAesgcm(s: string)
    ensures forall i: nat :: !OccursAt(ReplaceAll(s, "aesgcm", "https"), "aesgcm", i)
    decreases |s|
  {
    var pat, rep := "aesgcm", "https";
    var r := ReplaceAll(s, pat, rep);
    if |s| >= |pat| {
      if s[..|pat|] == pat {
        var t := ReplaceAll(s[|pat|..], pat, rep);
        RewriteLeavesNoAesgcm(s[|pat|..]);
        assert r == rep + t;
        forall i: nat ensures !OccursAt(r, pat, i) {
          if i < |rep| {
            assert r[i] == rep[i];
          } else if i + |pat| <= |r| {
            assert r[i..i + |pat|] == t[i - |rep|..i - |rep| + |pat|];
            assert !OccursAt(t, pat, i - |rep|);
          }
        }
      } else {
        var t := ReplaceAll(s[1..], pat, rep);
        RewriteLeavesNoAesgcm(s[1..]);
        assert r == [s[0]] + t;
        forall i: nat ensures !OccursAt(r, pat, i) {
          if OccursAt(r, pat, i) {
            if i == 0 {
              assert r[..6] == pat;
              assert t[..5] == r[1..6] == pat[1..];
              RewritePrefixWithoutH(s[1..], "esgcm");
            } else {
              assert r[i..i + |pat|] == t[i - 1..i - 1 + |pat|];
              assert OccursAt(t, pat, i - 1);
            }
          }
        }
      }
    }
  }

  /** The scheme of an `aesgcm://` URL becomes `https://`. */
  lemma AesgcmSchemeBecomesHttps(rest: string)
    ensures ReplaceAll("aesgcm://" + rest, "aesgcm", "https") == "https://" + ReplaceAll(rest, "aesgcm", "https")
  {
    var pat, rep := "aesgcm", "https";
    var s1 := ['/'] + rest;
    var s2 := ['/'] + s1;
    var s3 := [':'] + s2;
    assert "aesgcm://" + rest == pat + s3;
    ReplaceAllAtStart(s3, pat, rep);
    ReplaceAllSkipsChar(':', s2, pat, rep);
    ReplaceAllSkipsChar('/', s1, pat, rep);
    ReplaceAllSkipsChar('/', rest, pat, rep);
    var r := ReplaceAll(rest, pat, rep);
    assert ReplaceAll(pat + s3, pat, rep) == rep + ([':'] + (['/'] + (['/'] + r)));
    assert rep + ([':'] + (['/'] + (['/'] + r))) == "https://" + r;
  }

  /** A URL without "aesgcm" in it is left as it is. */
  lemma HttpFromAesKeepsPlainUrls(url: string, parses: string -> bool)
    requires forall i: nat :: !OccursAt(url, "aesgcm", i)
    ensures HttpFromAes(url, parses) == url
  {
    ReplaceAllWithoutOccurrence(url, "aesgcm", "https");
  }
}
