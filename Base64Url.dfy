/**
 Base64 to base64url post-processing used for PKCE (RFC 7636).

 Node's `toString('base64')` and CryptoJS's `enc.Base64` produce the padded
 alphabet of section 4 of RFC 4648. The server turns that into the URL- and
 filename-safe alphabet of section 5 of RFC 4648, without padding, by three global
 replacements: strip `=`, then `+` to `-`, then `/` to `_`. The reference
 below transcodes character by character through the 6-bit value each
 character stands for, as the two tables of RFC 4648 define it.
 */
module Base64Url {
  import opened Text

  /** A character of the alphabet of section 4 of RFC 4648 (not the pad). */
  predicate IsBase64Char(c: char)
  {
    ('A' <= c <= 'Z') || ('a' <= c <= 'z') || ('0' <= c <= '9') || c == '+' || c == '/'
  }

  /** A character of the alphabet of section 5 of RFC 4648. */
  predicate IsBase64UrlChar(c: char)
  {
    ('A' <= c <= 'Z') || ('a' <= c <= 'z') || ('0' <= c <= '9') || c == '-' || c == '_'
  }

  /** Base64 text: alphabet characters and pad characters only. */
  predicate IsBase64Text(s: string)
  {
    forall i :: 0 <= i < |s| ==> IsBase64Char(s[i]) || s[i] == '='
  }

  /** The value a character stands for in the table of section 4 of RFC 4648. */
  function SextetOf(c: char): (v: nat)
    requires IsBase64Char(c)
    ensures v < 64
  {
    if 'A' <= c <= 'Z' then c as int - 'A' as int
    else if 'a' <= c <= 'z' then c as int - 'a' as int + 26
    else if '0' <= c <= '9' then c as int - '0' as int + 52
    else if c == '+' then 62
    else 63
  }

  /** The character for a value in the table of section 5 of RFC 4648. */
  function UrlAlphabet(v: nat): (c: char)
    requires v < 64
    ensures IsBase64UrlChar(c)
  {
    if v < 26 then ('A' as int + v) as char
    else if v < 52 then ('a' as int + (v - 26)) as char
    else if v < 62 then ('0' as int + (v - 52)) as char
    else if v == 62 then '-'
    else '_'
  }

  /** Reference: the same data in the alphabet of section 5 of RFC 4648, with the padding left off. */
  function Transcode(s: string): (r: string)
    requires IsBase64Text(s)
    decreases |s|
  {
    if s == [] then []
    else (if s[0] == '=' then [] else [UrlAlphabet(SextetOf(s[0]))]) + Transcode(s[1..])
  }

  /** The replace chain of Server.js: strip `=`, then `+` to `-`, then `/` to `_`. */
  function UrlSafe(s: string): (r: string)
    ensures '=' !in r && '+' !in r && '/' !in r
    ensures |r| == |s| - Count(s, '=')
  {
    var stripped := RemoveAll(s, '=');
    var dashed := ReplaceAll(stripped, '+', '-');
    var r := ReplaceAll(dashed, '/', '_');
    assert '+' !in dashed by {
      forall i | 0 <= i < |dashed| ensures dashed[i] != '+' { }
    }
    assert '=' !in dashed by {
      forall i | 0 <= i < |dashed| ensures dashed[i] != '=' {
        assert stripped[i] != '=';
      }
    }
    assert forall i :: 0 <= i < |r| ==> r[i] != '=' && r[i] != '+' && r[i] != '/' by {
      forall i | 0 <= i < |r| ensures r[i] != '=' && r[i] != '+' && r[i] != '/' {
        assert dashed[i] != '=' && dashed[i] != '+';
      }
    }
    r
  }

  /** The two substitutions agree with the two tables on every character. */
  lemma CharAgrees(c: char)
    requires IsBase64Char(c)
    ensures UrlAlphabet(SextetOf(c)) == (if c == '+' then '-' else if c == '/' then '_' else c)
  {
  }

  /** The replace chain implements the transcoding from section 4 to section 5 of RFC 4648. */
  lemma {:induction false} UrlSafeTranscodes(s: string)
    requires IsBase64Text(s)
    ensures UrlSafe(s) == Transcode(s)
    decreases |s|
  {
    if s != [] {
      var c, t := s[0], s[1..];
      assert IsBase64Text(t) by {
        forall i | 0 <= i < |t| ensures IsBase64Char(t[i]) || t[i] == '=' {
          assert t[i] == s[i + 1];
        }
      }
      UrlSafeTranscodes(t);
      if c != '=' {
        assert RemoveAll(s, '=') == [c] + RemoveAll(t, '=');
        ReplaceAllConcat([c], RemoveAll(t, '='), '+', '-');
        var d := if c == '+' then '-' else c;
        assert ReplaceAll([c], '+', '-') == [d];
        ReplaceAllConcat([d], ReplaceAll(RemoveAll(t, '='), '+', '-'), '/', '_');
        assert ReplaceAll([d], '/', '_') == [if d == '/' then '_' else d];
        CharAgrees(c);
      }
    }
  }

  /**
   The order of the base64-url package's `escape` (`+` to `-`, `/` to `_`,
   then strip `=`) gives the same string as the order used in Server.js.
   */
  function Escape(s: string): (r: string)
    ensures r == UrlSafe(s)
  {
    var r := RemoveAll(ReplaceAll(ReplaceAll(s, '+', '-'), '/', '_'), '=');
    RemoveReplaceCommute(ReplaceAll(s, '+', '-'), '=', '/', '_');
    RemoveReplaceCommute(s, '=', '+', '-');
    r
  }

  /** A string with none of `=`, `+`, `/` passes through the replace chain unchanged. */
  lemma {:induction false} UrlSafeKeepsPlain(s: string)
    requires '=' !in s && '+' !in s && '/' !in s
    ensures UrlSafe(s) == s
    decreases |s|
  {
    if s != [] {
      var t := s[1..];
      assert '=' !in t && '+' !in t && '/' !in t by {
        forall i | 0 <= i < |t| ensures t[i] != '=' && t[i] != '+' && t[i] != '/' {
          assert t[i] == s[i + 1];
        }
      }
      UrlSafeKeepsPlain(t);
      assert RemoveAll(s, '=') == [s[0]] + RemoveAll(t, '=');
      ReplaceAllConcat([s[0]], RemoveAll(t, '='), '+', '-');
      assert ReplaceAll([s[0]], '+', '-') == [s[0]];
      ReplaceAllConcat([s[0]], ReplaceAll(RemoveAll(t, '='), '+', '-'), '/', '_');
      assert ReplaceAll([s[0]], '/', '_') == [s[0]];
      assert [s[0]] + t == s;
    }
  }

  // ---- PKCE ----

  /** `crypto.randomBytes(128)`: the number of random bytes behind a code verifier. */
  const VerifierBytes: nat := 128
  /** A SHA-256 digest is 32 bytes. */
  const Sha256Bytes: nat := 32

  /** Length of the padded Base64 encoding of `n` bytes (section 4 of RFC 4648). */
  function EncodedLength(n: nat): nat
  {
    4 * ((n + 2) / 3)
  }

  /** Number of `=` pad characters in the Base64 encoding of `n` bytes. */
  function PadCount(n: nat): nat
  {
    (3 - n % 3) % 3
  }

  /** `s` has the shape of the padded Base64 encoding of `n` bytes. */
  predicate IsPaddedBase64(s: string, n: nat)
  {
    && |s| == EncodedLength(n)
    && PadCount(n) <= |s|
    && (forall i :: 0 <= i < |s| - PadCount(n) ==> IsBase64Char(s[i]))
    && (forall i :: |s| - PadCount(n) <= i < |s| ==> s[i] == '=')
  }

  /** A padded encoding is Base64 text whose pad characters are exactly its trailing ones. */
  lemma PaddedFacts(s: string, n: nat)
    requires IsPaddedBase64(s, n)
    ensures IsBase64Text(s)
    ensures Count(s, '=') == PadCount(n)
  {
    var k := |s| - PadCount(n);
    assert s == s[..k] + s[k..];
    CountConcat(s[..k], s[k..], '=');
    assert '=' !in s[..k] by {
      forall i | 0 <= i < k ensures s[..k][i] != '=' {
        assert IsBase64Char(s[i]);
      }
    }
    CountAll(s[k..], '=');
  }

  /**
   `generateCodeVerifier`: the Base64 text of the random bytes through the replace
   chain. For the 128 bytes the server draws this is 171 characters of the
   alphabet of section 5 of RFC 4648.
   */
  function GenerateCodeVerifier(randomBase64: string): (v: string)
    ensures '=' !in v && '+' !in v && '/' !in v
    ensures IsPaddedBase64(randomBase64, VerifierBytes) ==>
              v == Transcode(randomBase64) && |v| == 171
  {
    if IsPaddedBase64(randomBase64, VerifierBytes) then
      PaddedFacts(randomBase64, VerifierBytes);
      UrlSafeTranscodes(randomBase64);
      UrlSafe(randomBase64)
    else
      UrlSafe(randomBase64)
  }

  /**
   `generateCodeChallenge`: the Base64 SHA-256 digest of the verifier through the
   replace chain, that is the S256 `code_challenge` of section 4.2 of RFC 7636,
   43 characters long. `sha256Base64` stands for `CryptoJS.SHA256(..).toString(Base64)`.
   */
  function GenerateCodeChallenge(verifier: string, sha256Base64: string -> string): (c: string)
    ensures '=' !in c && '+' !in c && '/' !in c
    ensures IsPaddedBase64(sha256Base64(verifier), Sha256Bytes) ==>
              c == Transcode(sha256Base64(verifier)) && |c| == 43
  {
    var digest := sha256Base64(verifier);
    if IsPaddedBase64(digest, Sha256Bytes) then
      PaddedFacts(digest, Sha256Bytes);
      UrlSafeTranscodes(digest);
      UrlSafe(digest)
    else
      UrlSafe(digest)
  }

  /** The transcoded text uses only the alphabet of section 5 of RFC 4648. */
  lemma {:induction false} TranscodeAlphabet(s: string)
    requires IsBase64Text(s)
    ensures forall i :: 0 <= i < |Transcode(s)| ==> IsBase64UrlChar(Transcode(s)[i])
    decreases |s|
  {
    if s != [] {
      var t := s[1..];
      assert IsBase64Text(t) by {
        forall i | 0 <= i < |t| ensures IsBase64Char(t[i]) || t[i] == '=' {
          assert t[i] == s[i + 1];
        }
      }
      TranscodeAlphabet(t);
    }
  }
}
